/** OperatorPriority.cpp, the shift-reduce driver: the symbol stack
    `stackContent` and the unread input `remainingInput` (global strings in
    the source), the choice of the production to reduce by (canReduce) and
    the analysis loop with its step trace (analyzeString). */
module OPAnalysis {
  import opened Seqs
  import opened TableWrites
  import opened OPGrammar
  import opened OPTable

  /** remainingInput[0]: the first unread character, or the terminating
      '\0' of the string when nothing is left. */
  function Head(s: seq<char>): (c: char)
    ensures |s| > 0 ==> c == s[0]
    ensures |s| == 0 ==> c == '\0'
  {
    if |s| > 0 then s[0] else '\0'
  }

  /** The position of the topmost terminal of s below position i, or -1
      when s[..i] holds only non-terminals. */
  function LastTerminal(s: seq<char>, i: nat): (r: int)
    requires i <= |s|
    ensures -1 <= r < i
    ensures r == -1 <==> forall k :: 0 <= k < i ==> IsNonTerminal(s[k])
    ensures r >= 0 ==> !IsNonTerminal(s[r]) && forall k :: r < k < i ==> IsNonTerminal(s[k])
    decreases i
  {
    if i == 0 then -1
    else if !IsNonTerminal(s[i - 1]) then i - 1
    else LastTerminal(s, i - 1)
  }

  /** lastTerminalPos of analyzeString: the topmost terminal, and the top of
      the stack when there is none. */
  function TopTerminal(stack: seq<char>): (r: nat)
    requires |stack| > 0
    ensures r < |stack|
  {
    if LastTerminal(stack, |stack|) == -1 then |stack| - 1 else LastTerminal(stack, |stack|)
  }

  /** Two symbols match when both are non-terminals or they are equal. */
  predicate SymbolsMatch(s: char, p: char) {
    (IsNonTerminal(s) && IsNonTerminal(p)) || s == p
  }

  /** The test canReduce makes for one right side: its n symbols match the
      top n of the stack one by one, and those top n hold a terminal. */
  predicate Matches(rhs: seq<char>, stack: seq<char>) {
    && |rhs| <= |stack|
    && (exists k :: |stack| - |rhs| <= k < |stack| && !IsNonTerminal(stack[k]))
    && forall j :: 0 <= j < |rhs| ==> SymbolsMatch(stack[|stack| - |rhs| + j], rhs[j])
  }

  /** The first production canReduce accepts, or -1. */
  function FirstMatchFrom(prods: seq<Production>, stack: seq<char>, i: nat): (r: int)
    requires i <= |prods|
    ensures r == -1 ==> forall k :: i <= k < |prods| ==> !Matches(prods[k].rhs, stack)
    ensures r != -1 ==> i <= r < |prods| && Matches(prods[r].rhs, stack) &&
                        forall k :: i <= k < r ==> !Matches(prods[k].rhs, stack)
    decreases |prods| - i
  {
    if i == |prods| then -1
    else if Matches(prods[i].rhs, stack) then i
    else FirstMatchFrom(prods, stack, i + 1)
  }

  function FirstMatch(prods: seq<Production>, stack: seq<char>): int {
    FirstMatchFrom(prods, stack, 0)
  }

  /** The first production accepted by canReduce, when there is one, is
      the smallest index whose right side matches. */
  lemma FirstMatchIsLeast(prods: seq<Production>, stack: seq<char>)
    ensures FirstMatch(prods, stack) == -1 <==> forall k :: 0 <= k < |prods| ==> !Matches(prods[k].rhs, stack)
    ensures FirstMatch(prods, stack) != -1 ==>
              var r := FirstMatch(prods, stack);
              0 <= r < |prods| && Matches(prods[r].rhs, stack) &&
              forall k :: 0 <= k < r ==> !Matches(prods[k].rhs, stack)
  {
    var r := FirstMatch(prods, stack);
    if r != -1 {
      assert 0 <= r < |prods| && Matches(prods[r].rhs, stack);
    }
  }

  /** The stack is never empty: it starts as "#", a shift pushes and a
      reduction pushes a left side. */
  type Stack = s: seq<char> | |s| > 0 witness "#"

  /** The stack and the unread input. */
  datatype Config = Config(stack: Stack, input: seq<char>)

  /** How the loop of analyzeString ends. */
  datatype Reason = NoReduction | UndefinedRelation
  datatype Outcome = Accepted | Rejected(reason: Reason) | OutOfSteps

  /** One iteration: the relation looked up, the action recorded, and either
      the next configuration (with the production reduced by, -1 on a
      shift) or the outcome the loop ends with. */
  datatype Transition =
    | Go(relation: char, action: Action, next: Config, reduced: int)
    | Halt(relation: char, action: Action, outcome: Outcome)

  /** One iteration of the loop of analyzeString: the relation between the
      topmost terminal of the stack and the first unread character decides. */
  function Next(prods: seq<Production>, terms: seq<char>, g: seq<seq<char>>, c: Config): Transition
    requires Square(g, |terms|)
  {
    var top, a := c.stack[TopTerminal(c.stack)], Head(c.input);
    var rel := Relation(terms, g, top, a);
    if rel == '=' && top == '#' && a == '#' then Halt(rel, Accept, Accepted)
    else if rel == '=' || rel == '<' then Go(rel, Shift, Config(c.stack + [a], RemoveFirstChar(c.input)), -1)
    else if rel == '>' then
      var i := FirstMatch(prods, c.stack);
      if i == -1 then Halt(rel, NoAction, Rejected(NoReduction))
      else Go(rel, Reduce, Config(c.stack[..|c.stack| - |prods[i].rhs|] + [prods[i].lhs], c.input), i)
    else Halt(rel, NoAction, Rejected(UndefinedRelation))
  }

  /** The iteration of analyzeString for a grammar and a precedence table. */
  function Machine(prods: seq<Production>, terms: seq<char>, g: seq<seq<char>>): Config -> Transition
    requires Square(g, |terms|)
  {
    c => Next(prods, terms, g, c)
  }

  /** f is the iteration Next for this grammar and table. */
  ghost predicate Realizes(f: Config -> Transition, prods: seq<Production>, terms: seq<char>, g: seq<seq<char>>)
    requires Square(g, |terms|)
  {
    forall c {:trigger Next(prods, terms, g, c)} :: f(c) == Next(prods, terms, g, c)
  }

  lemma MachineRealizes(prods: seq<Production>, terms: seq<char>, g: seq<seq<char>>)
    requires Square(g, |terms|)
    ensures Realizes(Machine(prods, terms, g), prods, terms, g)
  {
    forall c ensures Machine(prods, terms, g)(c) == Next(prods, terms, g, c) {
    }
  }

  /** Where at most fuel iterations leave the loop: how it ended, the final
      configuration, the trace table with the new rows appended, currentStep
      and matchedProduction (the last production reduced by, if any). */
  datatype Final = Final(outcome: Outcome, config: Config, trace: seq<TraceRow>, step: int, matched: int)

  /** The iteration never halts claiming to be out of steps. */
  ghost predicate HaltsWithEnd(f: Config -> Transition) {
    forall c :: f(c).Halt? ==> f(c).outcome != OutOfSteps
  }

  /** At most fuel iterations of f from c, appending one row per iteration
      to trace; step is currentStep and matched is matchedProduction. */
  function Drive(f: Config -> Transition, c: Config, trace: seq<TraceRow>, step: int, matched: int, fuel: nat): Final
    decreases fuel
  {
    if fuel == 0 then Final(OutOfSteps, c, trace, step, matched)
    else
      var t := f(c);
      var trace' := trace + [TraceRow(step, c.stack, t.relation, c.input, t.action)];
      if t.Halt? then Final(t.outcome, c, trace', step, matched)
      else Drive(f, t.next, trace', step + 1, if t.action == Reduce then t.reduced else matched, fuel - 1)
  }

  /** Next never halts claiming to be out of steps. */
  lemma MachineHaltsWithEnd(prods: seq<Production>, terms: seq<char>, g: seq<seq<char>>)
    requires Square(g, |terms|)
    ensures HaltsWithEnd(Machine(prods, terms, g))
  {
    forall c | Machine(prods, terms, g)(c).Halt?
      ensures Machine(prods, terms, g)(c).outcome != OutOfSteps
    {
      HaltStep(prods, terms, g, c);
    }
  }

  /** The loop only appends to the trace table, at most fuel rows (at least
      one when fuel > 0); currentStep advances once per move, every row but
      the one of a final accept or error is a move, and the loop runs out of
      iterations exactly when all fuel iterations were moves. The new rows are numbered from step on, and the first records the
      starting configuration. */
  lemma {:induction false} DriveTrace(f: Config -> Transition, c: Config, trace: seq<TraceRow>, step: int,
                                      matched: int, fuel: nat)
    requires HaltsWithEnd(f)
    ensures var r := Drive(f, c, trace, step, matched, fuel);
            && trace <= r.trace && |r.trace| <= |trace| + fuel
            && (fuel > 0 ==> |r.trace| > |trace|)
            && r.step == step + |r.trace| - |trace| - (if r.outcome == OutOfSteps then 0 else 1)
            && (r.outcome == OutOfSteps <==> r.step == step + fuel)
            && (forall k :: |trace| <= k < |r.trace| ==> r.trace[k].step == step + k - |trace|)
            && (fuel > 0 ==> r.trace[|trace|] == TraceRow(step, c.stack, f(c).relation, c.input, f(c).action))
    decreases fuel
  {
    if fuel > 0 {
      var t := f(c);
      var trace' := trace + [TraceRow(step, c.stack, t.relation, c.input, t.action)];
      if t.Go? {
        DriveTrace(f, t.next, trace', step + 1, if t.action == Reduce then t.reduced else matched, fuel - 1);
        var r := Drive(f, c, trace, step, matched, fuel);
        assert r.trace[|trace|] == trace'[|trace|];
      } else {
        assert t.outcome != OutOfSteps;
      }
    }
  }

  /** A run that did not run out of iterations ended at a configuration from
      which the iteration halts with that outcome, recorded in its last row. */
  lemma {:induction false} DriveEnd(f: Config -> Transition, c: Config, trace: seq<TraceRow>, step: int,
                                    matched: int, fuel: nat)
    ensures var r := Drive(f, c, trace, step, matched, fuel);
            r.outcome != OutOfSteps ==>
              && f(r.config).Halt? && f(r.config).outcome == r.outcome
              && |r.trace| > 0 && r.trace[|r.trace| - 1].action == f(r.config).action
              && r.trace[|r.trace| - 1].stack == r.config.stack
    decreases fuel
  {
    if fuel > 0 && f(c).Go? {
      var t := f(c);
      var trace' := trace + [TraceRow(step, c.stack, t.relation, c.input, t.action)];
      DriveEnd(f, t.next, trace', step + 1, if t.action == Reduce then t.reduced else matched, fuel - 1);
    }
  }

  /** A shift happens on '<', and on '=' unless both symbols are '#'; it
      moves exactly the first unread character onto the stack. */
  lemma ShiftStep(prods: seq<Production>, terms: seq<char>, g: seq<seq<char>>, c: Config)
    requires Square(g, |terms|)
    ensures var t := Next(prods, terms, g, c);
            var top, a := c.stack[TopTerminal(c.stack)], Head(c.input);
            && t.relation == Relation(terms, g, top, a)
            && (t.action == Shift <==> t.relation == '<' || (t.relation == '=' && !(top == '#' && a == '#')))
            && (t.action == Shift ==>
                  t.Go? && t.next.stack == c.stack + [a] &&
                  (|c.input| > 0 ==> c.input == [a] + t.next.input) &&
                  (|c.input| == 0 ==> t.next.input == []))
  {
  }

  /** A reduction happens on '>' when some right side matches; it replaces
      the top n symbols of the stack, which match the first such right side,
      by its left side, so the stack changes length by 1 - n, and it reads
      nothing. */
  lemma ReduceStep(prods: seq<Production>, terms: seq<char>, g: seq<seq<char>>, c: Config)
    requires Square(g, |terms|)
    ensures var t := Next(prods, terms, g, c);
            && (t.action == Reduce <==> t.relation == '>' && FirstMatch(prods, c.stack) != -1)
            && (t.action == Reduce ==>
                  var i := FirstMatch(prods, c.stack);
                  var n := |prods[i].rhs|;
                  && t.Go? && t.reduced == i
                  && Matches(prods[i].rhs, c.stack)
                  && 1 <= n <= |c.stack|
                  && t.next.stack == c.stack[..|c.stack| - n] + [prods[i].lhs]
                  && |t.next.stack| == |c.stack| + 1 - n
                  && t.next.input == c.input)
  {
    if Next(prods, terms, g, c).action == Reduce {
      FirstMatchIsLeast(prods, c.stack);
      var i := FirstMatch(prods, c.stack);
      var k :| |c.stack| - |prods[i].rhs| <= k < |c.stack| && !IsNonTerminal(c.stack[k]);
    }
  }

  /** The loop ends by accepting exactly at '=' between '#' and '#', and by an
      error exactly on '>' with no matching right side or on a relation that
      is not one of '<', '=', '>'. */
  lemma HaltStep(prods: seq<Production>, terms: seq<char>, g: seq<seq<char>>, c: Config)
    requires Square(g, |terms|)
    ensures var t := Next(prods, terms, g, c);
            var top, a := c.stack[TopTerminal(c.stack)], Head(c.input);
            && (t.Halt? && t.outcome == Accepted <==> t.relation == '=' && top == '#' && a == '#')
            && (t.Halt? && t.outcome == Rejected(NoReduction) <==>
                  t.relation == '>' && forall k :: 0 <= k < |prods| ==> !Matches(prods[k].rhs, c.stack))
            && (t.Halt? && t.outcome == Rejected(UndefinedRelation) <==>
                  t.relation != '=' && t.relation != '<' && t.relation != '>')
            && (t.Halt? ==> (t.action == Accept <==> t.outcome == Accepted) && t.outcome != OutOfSteps)
            && (t.Go? <==> t.action == Shift || t.action == Reduce)
  {
    FirstMatchIsLeast(prods, c.stack);
  }

  /** An accepted run of analyzeString ends with '#' as topmost terminal, '#'
      as next input character and '=' between them, and its last row says
      Accept. */
  lemma AcceptedRun(prods: seq<Production>, terms: seq<char>, g: seq<seq<char>>, c: Config,
                    trace: seq<TraceRow>, step: int, matched: int, fuel: nat)
    requires Square(g, |terms|)
    requires Drive(Machine(prods, terms, g), c, trace, step, matched, fuel).outcome == Accepted
    ensures var r := Drive(Machine(prods, terms, g), c, trace, step, matched, fuel);
            && |r.trace| > 0 && r.trace[|r.trace| - 1].action == Accept
            && r.config.stack[TopTerminal(r.config.stack)] == '#' && Head(r.config.input) == '#'
            && Relation(terms, g, '#', '#') == '='
  {
    var f := Machine(prods, terms, g);
    DriveEnd(f, c, trace, step, matched, fuel);
    var r := Drive(f, c, trace, step, matched, fuel);
    assert f(r.config) == Next(prods, terms, g, r.config);
    HaltStep(prods, terms, g, r.config);
  }

  /** The global strings stackContent and remainingInput. */
  class ParseState {
    var stackContent: seq<char>
    var remainingInput: seq<char>

    constructor ()
      ensures stackContent == "#" && remainingInput == ""
    {
      stackContent, remainingInput := "#", "";
    }

    /** The scan for lastTerminalPos in analyzeString. */
    method TopTerminalPos() returns (pos: int)
      requires |stackContent| > 0
      ensures pos == TopTerminal(stackContent)
    {
      pos := |stackContent| - 1;
      if IsNonTerminal(stackContent[pos]) {
        var i := |stackContent| - 1;
        while i >= 0
          invariant -1 <= i < |stackContent|
          invariant LastTerminal(stackContent, |stackContent|) == LastTerminal(stackContent, i + 1)
          invariant pos == |stackContent| - 1
        {
          if !IsNonTerminal(stackContent[i]) {
            pos := i;
            break;
          }
          i := i - 1;
        }
      }
    }

    /** The inner loop of canReduce: how many of the symbols of rhs match the
        stack, aligned at its top. */
    method MatchCount(rhs: seq<char>) returns (matchCount: int)
      requires |rhs| <= |stackContent|
      ensures matchCount == |rhs| <==>
                forall j :: 0 <= j < |rhs| ==> SymbolsMatch(stackContent[|stackContent| - |rhs| + j], rhs[j])
    {
      var n := |rhs|;
      matchCount := 0;
      var stackPos := |stackContent| - 1;
      var j := n - 1;
      while j >= 0 && stackPos >= 0
        invariant -1 <= j < n && stackPos == |stackContent| - n + j
        invariant 0 <= matchCount <= n - 1 - j
        invariant matchCount == n - 1 - j <==>
                    forall m :: j < m < n ==> SymbolsMatch(stackContent[|stackContent| - n + m], rhs[m])
      {
        if (IsNonTerminal(stackContent[stackPos]) && IsNonTerminal(rhs[j])) || stackContent[stackPos] == rhs[j] {
          matchCount := matchCount + 1;
        }
        j, stackPos := j - 1, stackPos - 1;
      }
    }

    /** canReduce: true exactly when some right side matches the top of the
        stack; matchedProduction is then the first such production. */
    method CanReduce(grammar: Grammar, data: ParsingData) returns (found: bool)
      modifies data`matchedProduction
      ensures found <==> FirstMatch(grammar.productions, stackContent) != -1
      ensures data.matchedProduction == if found then FirstMatch(grammar.productions, stackContent)
                                        else old(data.matchedProduction)
    {
      ghost var prods := grammar.productions;
      FirstMatchIsLeast(prods, stackContent);
      var i := 0;
      while i < |grammar.productions|
        invariant 0 <= i <= |prods|
        invariant forall k :: 0 <= k < i ==> !Matches(prods[k].rhs, stackContent)
        invariant data.matchedProduction == old(data.matchedProduction)
      {
        var prodLen := |grammar.productions[i].rhs|;
        var hasTerminal := false;
        if prodLen <= |stackContent| {
          hasTerminal := ContainsTerminal(prodLen, stackContent);
        }
        if hasTerminal {
          var matchCount := MatchCount(grammar.productions[i].rhs);
          if matchCount == prodLen {
            data.matchedProduction := i;
            return true;
          }
        }
        i := i + 1;
      }
      return false;
    }

    /** analyzeString, for at most fuel iterations: every iteration records
        a trace row and then shifts, reduces, accepts or stops with an error.
        f is the iteration Next of this grammar and table: Machine(prods,
        terms, g) meets the Realizes precondition by MachineRealizes, so the
        contract is Drive iterating Next. The iteration is a ghost parameter,
        not Machine itself, because stating the loop invariant over the
        lambda Machine makes every iteration's proof unfold Next through it,
        which is several times as expensive.
        Rows are appended where the source writes analysisTable[currentStep].
        The two agree from a fresh ParsingData, where every move keeps one
        row per step taken. A halt does not advance currentStep, so a second
        call would overwrite the source's last row, while here it appends a
        row with the same step. */
    method AnalyzeString(grammar: Grammar, data: ParsingData, input: seq<char>, fuel: nat, ghost f: Config -> Transition)
        returns (outcome: Outcome)
      requires |stackContent| > 0 && Square(data.relations, |data.terminals|)
      requires Realizes(f, grammar.productions, data.terminals, data.relations)
      modifies this, data`analysisTable, data`currentStep, data`matchedProduction
      ensures var r := Drive(f, Config(old(stackContent), input), old(data.analysisTable),
                             old(data.currentStep), old(data.matchedProduction), fuel);
              && outcome == r.outcome
              && stackContent == r.config.stack && remainingInput == r.config.input
              && data.analysisTable == r.trace && data.currentStep == r.step && data.matchedProduction == r.matched
    {
      ghost var prods, terms, g := grammar.productions, data.terminals, data.relations;
      ghost var final := Drive(f, Config(stackContent, input), data.analysisTable, data.currentStep,
                               data.matchedProduction, fuel);
      remainingInput := input;
      var left: nat := fuel;
      while left > 0
        invariant |stackContent| > 0
        invariant data.terminals == terms && data.relations == g && grammar.productions == prods
        invariant final == Drive(f, Config(stackContent, remainingInput), data.analysisTable, data.currentStep,
                                 data.matchedProduction, left)
      {
        var t := Step(grammar, data, f);
        if t.Halt? {
          return t.outcome;
        }
        left := left - 1;
      }
      return OutOfSteps;
    }

    /** One iteration of the loop of analyzeString: its trace row, then the
        move, or the outcome when the loop ends here. The transition is
        f(c), which Realizes makes Next of the current configuration. The row
        is appended, as in AnalyzeString. */
    method Step(grammar: Grammar, data: ParsingData, ghost f: Config -> Transition) returns (t: Transition)
      requires |stackContent| > 0 && Square(data.relations, |data.terminals|)
      requires Realizes(f, grammar.productions, data.terminals, data.relations)
      modifies this, data`analysisTable, data`currentStep, data`matchedProduction
      ensures t == f(Config(old(stackContent), old(remainingInput)))
      ensures data.analysisTable == old(data.analysisTable) +
                [TraceRow(old(data.currentStep), old(stackContent), t.relation, old(remainingInput), t.action)]
      ensures t.Halt? ==> stackContent == old(stackContent) && remainingInput == old(remainingInput) &&
                          data.currentStep == old(data.currentStep) &&
                          data.matchedProduction == old(data.matchedProduction)
      ensures t.Go? ==> |stackContent| > 0 && Config(stackContent, remainingInput) == t.next &&
                        data.currentStep == old(data.currentStep) + 1 &&
                        data.matchedProduction == if t.action == Reduce then t.reduced else old(data.matchedProduction)
    {
      t := Decide(grammar, data);
      data.analysisTable := data.analysisTable + [TraceRow(data.currentStep, stackContent, t.relation, remainingInput, t.action)];
      if t.Go? {
        stackContent, remainingInput := t.next.stack, t.next.input;
        data.currentStep := data.currentStep + 1;
      }
    }

    /** The choice an iteration makes: the relation, and then accept, shift,
        reduce (canReduce sets matchedProduction) or stop with an error. */
    method Decide(grammar: Grammar, data: ParsingData) returns (t: Transition)
      requires |stackContent| > 0 && Square(data.relations, |data.terminals|)
      modifies data`matchedProduction
      ensures t == Next(grammar.productions, data.terminals, data.relations, Config(stackContent, remainingInput))
      ensures data.matchedProduction == if t.action == Reduce then t.reduced else old(data.matchedProduction)
    {
      var pos := TopTerminalPos();
      var top, a := stackContent[pos], Head(remainingInput);
      var relation := data.GetPrecedenceRelation(top, a);
      if relation == '=' && top == '#' && a == '#' {
        t := Halt(relation, Accept, Accepted);
      } else if relation == '=' || relation == '<' {
        t := Go(relation, Shift, Config(stackContent + [a], RemoveFirstChar(remainingInput)), -1);
      } else if relation == '>' {
        var reducible := CanReduce(grammar, data);
        if reducible {
          var prodIndex := data.matchedProduction;
          FirstMatchIsLeast(grammar.productions, stackContent);
          var prodLen := |grammar.productions[prodIndex].rhs|;
          t := Go(relation, Reduce, Config(stackContent[..|stackContent| - prodLen] + [grammar.productions[prodIndex].lhs],
                                           remainingInput), prodIndex);
        } else {
          t := Halt(relation, NoAction, Rejected(NoReduction));
        }
      } else {
        t := Halt(relation, NoAction, Rejected(UndefinedRelation));
      }
    }
  }
}

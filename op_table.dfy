/** OperatorPriority.cpp, the operator precedence table. The source keeps it
    in one char matrix whose row 0 and column 0 hold the terminals as
    headers (cells 1..terminalCount) and whose interior holds the relations.
    Here the header is the sequence `terminals` (header k+1 is terminals[k])
    and the interior is `relations` (cell [r+1][c+1] is relations[r][c]). */
module OPTable {
  import opened Seqs
  import opened TableWrites
  import opened OPGrammar
  import opened OPSets

  /** The action column of a row of the analysis trace. */
  datatype Action = Accept | Shift | Reduce | NoAction

  /** One row of the analysis trace: step number, stack, relation, input, action. */
  datatype TraceRow = TraceRow(step: int, stack: seq<char>, relation: char, input: seq<char>, action: Action)

  /** The terminals of all right sides, in order, upper-case letters left out. */
  function RhsTerminals(prods: seq<Production>): seq<char>
    decreases |prods|
  {
    if |prods| == 0 then []
    else RhsTerminals(prods[..|prods| - 1]) + NonUpper(prods[|prods| - 1].rhs)
  }

  lemma {:induction false} RhsTerminalsMembers(prods: seq<Production>)
    ensures forall c :: c in RhsTerminals(prods) <==> OccursInRhs(prods, c) && !IsNonTerminal(c)
    decreases |prods|
  {
    if |prods| > 0 {
      var init, last := prods[..|prods| - 1], prods[|prods| - 1];
      RhsTerminalsMembers(init);
      NonUpperMembers(last.rhs);
      forall c ensures c in RhsTerminals(prods) <==> OccursInRhs(prods, c) && !IsNonTerminal(c) {
        if OccursInRhs(prods, c) && !IsNonTerminal(c) {
          var i, j :| 0 <= i < |prods| && 0 <= j < |prods[i].rhs| && prods[i].rhs[j] == c;
          if i < |prods| - 1 {
            assert init[i] == prods[i];
            assert OccursInRhs(init, c);
          } else {
            assert c in last.rhs;
          }
        }
        if c in RhsTerminals(prods) {
          if c in RhsTerminals(init) {
            var i, j :| 0 <= i < |init| && 0 <= j < |init[i].rhs| && init[i].rhs[j] == c;
            assert prods[i] == init[i];
          } else {
            var j :| 0 <= j < |last.rhs| && last.rhs[j] == c;
            assert prods[|prods| - 1].rhs[j] == c;
          }
        }
      }
    }
  }

  /** An n-by-n interior with every cell blank. */
  function Blank(n: nat): (g: seq<seq<char>>)
    ensures Square(g, n) && forall r, c :: 0 <= r < n && 0 <= c < n ==> g[r][c] == ' '
  {
    seq(n, r => seq(n, c => ' '))
  }

  /** getPrecedenceRelation: the relation between a and b, blank when either is
      not a header terminal. */
  function Relation(terms: seq<char>, g: seq<seq<char>>, a: char, b: char): char
    requires Square(g, |terms|)
  {
    if a in terms && b in terms then g[IndexOf(terms, a)][IndexOf(terms, b)] else ' '
  }

  /** The FIRSTVT (LASTVT) string of a non-terminal, empty when it has no row. */
  function RowOf(vt: seq<VTEntry>, c: char): seq<char> {
    if c in Symbols(vt) then TerminalsOf(vt, c) else []
  }

  /** The writes of rule 1 (ab), rule 2 (aQb), rule 3 (aQ) and rule 4 (Qa)
      at position j of a right side, in that order. */
  function Rule1(rhs: seq<char>, j: nat): seq<Write> {
    if j + 1 < |rhs| && !IsNonTerminal(rhs[j]) && !IsNonTerminal(rhs[j + 1])
    then [Write(rhs[j], rhs[j + 1], '=')] else []
  }

  function Rule2(rhs: seq<char>, j: nat): seq<Write> {
    if j + 2 < |rhs| && !IsNonTerminal(rhs[j]) && IsNonTerminal(rhs[j + 1]) && !IsNonTerminal(rhs[j + 2])
    then [Write(rhs[j], rhs[j + 2], '=')] else []
  }

  function Rule3(rhs: seq<char>, j: nat, firstVT: seq<VTEntry>): seq<Write> {
    if j + 1 < |rhs| && !IsNonTerminal(rhs[j]) && IsNonTerminal(rhs[j + 1])
    then LessWrites(rhs[j], RowOf(firstVT, rhs[j + 1])) else []
  }

  function Rule4(rhs: seq<char>, j: nat, lastVT: seq<VTEntry>): seq<Write> {
    if j + 1 < |rhs| && IsNonTerminal(rhs[j]) && !IsNonTerminal(rhs[j + 1])
    then GreaterWrites(RowOf(lastVT, rhs[j]), rhs[j + 1]) else []
  }

  function WindowWrites(rhs: seq<char>, j: nat, firstVT: seq<VTEntry>, lastVT: seq<VTEntry>): seq<Write> {
    Rule1(rhs, j) + Rule2(rhs, j) + Rule3(rhs, j, firstVT) + Rule4(rhs, j, lastVT)
  }

  /** The writes for positions 0 .. n-1 of a right side. */
  function RhsWrites(rhs: seq<char>, n: nat, firstVT: seq<VTEntry>, lastVT: seq<VTEntry>): seq<Write> {
    Concat(Windows(rhs, firstVT, lastVT), n)
  }

  /** The writes of each position of a right side. */
  function Windows(rhs: seq<char>, firstVT: seq<VTEntry>, lastVT: seq<VTEntry>): nat -> seq<Write> {
    (j: nat) => WindowWrites(rhs, j, firstVT, lastVT)
  }

  /** Every write buildPrecedenceTable performs, in order. */
  function TableWriteList(prods: seq<Production>, firstVT: seq<VTEntry>, lastVT: seq<VTEntry>): seq<Write>
    decreases |prods|
  {
    if |prods| == 0 then []
    else
      var last := prods[|prods| - 1];
      TableWriteList(prods[..|prods| - 1], firstVT, lastVT) + RhsWrites(last.rhs, |last.rhs|, firstVT, lastVT)
  }

  /** The rule that names cell (a, b) with value v at position j of rhs. */
  predicate NamedAt(rhs: seq<char>, j: int, firstVT: seq<VTEntry>, lastVT: seq<VTEntry>, a: char, b: char, v: char) {
    0 <= j && j + 1 < |rhs| &&
    ( (v == '=' && !IsNonTerminal(rhs[j]) && !IsNonTerminal(rhs[j + 1]) && a == rhs[j] && b == rhs[j + 1])
    || (v == '=' && j + 2 < |rhs| && !IsNonTerminal(rhs[j]) && IsNonTerminal(rhs[j + 1]) && !IsNonTerminal(rhs[j + 2])
        && a == rhs[j] && b == rhs[j + 2])
    || (v == '<' && !IsNonTerminal(rhs[j]) && IsNonTerminal(rhs[j + 1]) && a == rhs[j] && b in RowOf(firstVT, rhs[j + 1]))
    || (v == '>' && IsNonTerminal(rhs[j]) && !IsNonTerminal(rhs[j + 1]) && a in RowOf(lastVT, rhs[j]) && b == rhs[j + 1]))
  }

  /** Some production names cell (a, b) with value v. */
  predicate Named(prods: seq<Production>, firstVT: seq<VTEntry>, lastVT: seq<VTEntry>, a: char, b: char, v: char) {
    exists i, j :: 0 <= i < |prods| && 0 <= j < |prods[i].rhs| && NamedAt(prods[i].rhs, j, firstVT, lastVT, a, b, v)
  }

  lemma WindowWritesNamed(rhs: seq<char>, j: nat, firstVT: seq<VTEntry>, lastVT: seq<VTEntry>, w: Write)
    ensures w in WindowWrites(rhs, j, firstVT, lastVT) <==> NamedAt(rhs, j, firstVT, lastVT, w.row, w.col, w.value)
  {
    if j + 1 < |rhs| {
      LessWritesMembers(rhs[j], RowOf(firstVT, rhs[j + 1]), w);
      GreaterWritesMembers(RowOf(lastVT, rhs[j]), rhs[j + 1], w);
    }
  }

  /** A write for positions before n of rhs comes from a rule at one of them. */
  lemma RhsWritesSound(rhs: seq<char>, n: nat, firstVT: seq<VTEntry>, lastVT: seq<VTEntry>, w: Write)
    returns (j: nat)
    requires w in RhsWrites(rhs, n, firstVT, lastVT)
    ensures j < n && NamedAt(rhs, j, firstVT, lastVT, w.row, w.col, w.value)
  {
    j := ConcatSound(Windows(rhs, firstVT, lastVT), n, w);
    assert w in WindowWrites(rhs, j, firstVT, lastVT);
    WindowWritesNamed(rhs, j, firstVT, lastVT, w);
  }

  /** A rule at a position before n of rhs contributes its write. */
  lemma RhsWritesComplete(rhs: seq<char>, n: nat, firstVT: seq<VTEntry>, lastVT: seq<VTEntry>, w: Write, j: nat)
    requires j < n && NamedAt(rhs, j, firstVT, lastVT, w.row, w.col, w.value)
    ensures w in RhsWrites(rhs, n, firstVT, lastVT)
  {
    WindowWritesNamed(rhs, j, firstVT, lastVT, w);
    assert w in Windows(rhs, firstVT, lastVT)(j);
    ConcatComplete(Windows(rhs, firstVT, lastVT), n, w, j);
  }

  lemma {:induction false} TableWritesSound(prods: seq<Production>, firstVT: seq<VTEntry>, lastVT: seq<VTEntry>, w: Write)
    returns (i: nat, j: nat)
    requires w in TableWriteList(prods, firstVT, lastVT)
    ensures i < |prods| && j < |prods[i].rhs| && NamedAt(prods[i].rhs, j, firstVT, lastVT, w.row, w.col, w.value)
    decreases |prods|
  {
    var init, last := prods[..|prods| - 1], prods[|prods| - 1];
    if w in RhsWrites(last.rhs, |last.rhs|, firstVT, lastVT) {
      i := |prods| - 1;
      j := RhsWritesSound(last.rhs, |last.rhs|, firstVT, lastVT, w);
    } else {
      i, j := TableWritesSound(init, firstVT, lastVT, w);
      assert prods[i] == init[i];
    }
  }

  lemma {:induction false} TableWritesComplete(prods: seq<Production>, firstVT: seq<VTEntry>, lastVT: seq<VTEntry>,
                                               w: Write, i: nat, j: nat)
    requires i < |prods| && j < |prods[i].rhs| && NamedAt(prods[i].rhs, j, firstVT, lastVT, w.row, w.col, w.value)
    ensures w in TableWriteList(prods, firstVT, lastVT)
    decreases |prods|
  {
    var init, last := prods[..|prods| - 1], prods[|prods| - 1];
    if i == |prods| - 1 {
      RhsWritesComplete(last.rhs, |last.rhs|, firstVT, lastVT, w, j);
    } else {
      assert prods[i] == init[i];
      TableWritesComplete(init, firstVT, lastVT, w, i, j);
    }
  }

  /** A write is in the list exactly when one of the four rules names it:
      buildPrecedenceTable writes nothing else and everything named. */
  lemma TableWritesNamed(prods: seq<Production>, firstVT: seq<VTEntry>, lastVT: seq<VTEntry>, w: Write)
    ensures w in TableWriteList(prods, firstVT, lastVT) <==> Named(prods, firstVT, lastVT, w.row, w.col, w.value)
  {
    if w in TableWriteList(prods, firstVT, lastVT) {
      var i, j := TableWritesSound(prods, firstVT, lastVT, w);
    }
    if Named(prods, firstVT, lastVT, w.row, w.col, w.value) {
      var i, j :| 0 <= i < |prods| && 0 <= j < |prods[i].rhs| && NamedAt(prods[i].rhs, j, firstVT, lastVT, w.row, w.col, w.value);
      TableWritesComplete(prods, firstVT, lastVT, w, i, j);
    }
  }

  /** Every non-terminal rule 3 or rule 4 looks up in rhs has a row (the
      source indexes row -1 otherwise). */
  predicate RowsKnownIn(rhs: seq<char>, symbols: seq<char>) {
    forall j :: 0 <= j < |rhs| - 1 ==>
      (!IsNonTerminal(rhs[j]) && IsNonTerminal(rhs[j + 1]) ==> rhs[j + 1] in symbols) &&
      (IsNonTerminal(rhs[j]) && !IsNonTerminal(rhs[j + 1]) ==> rhs[j] in symbols)
  }

  predicate RowsKnown(prods: seq<Production>, symbols: seq<char>) {
    forall i :: 0 <= i < |prods| ==> RowsKnownIn(prods[i].rhs, symbols)
  }

  /** The writes of a prefix of the productions, and of the next right side,
      name header terminals when all the writes do. */
  lemma WithinHeaderParts(terms: seq<char>, prods: seq<Production>, i: nat, firstVT: seq<VTEntry>, lastVT: seq<VTEntry>)
    requires i < |prods| && WithinHeader(terms, TableWriteList(prods, firstVT, lastVT))
    ensures WithinHeader(terms, TableWriteList(prods[..i], firstVT, lastVT))
    ensures WithinHeader(terms, RhsWrites(prods[i].rhs, |prods[i].rhs|, firstVT, lastVT))
  {
    forall w | w in TableWriteList(prods[..i], firstVT, lastVT)
      ensures w.row in terms && w.col in terms
    {
      var i', j := TableWritesSound(prods[..i], firstVT, lastVT, w);
      assert prods[..i][i'] == prods[i'];
      TableWritesComplete(prods, firstVT, lastVT, w, i', j);
    }
    forall w | w in RhsWrites(prods[i].rhs, |prods[i].rhs|, firstVT, lastVT)
      ensures w.row in terms && w.col in terms
    {
      var j := RhsWritesSound(prods[i].rhs, |prods[i].rhs|, firstVT, lastVT, w);
      TableWritesComplete(prods, firstVT, lastVT, w, i, j);
    }
  }

  /** The same for the positions of one right side. */
  lemma RhsWritesParts(terms: seq<char>, rhs: seq<char>, j: nat, firstVT: seq<VTEntry>, lastVT: seq<VTEntry>)
    requires j < |rhs| && WithinHeader(terms, RhsWrites(rhs, |rhs|, firstVT, lastVT))
    ensures WithinHeader(terms, RhsWrites(rhs, j, firstVT, lastVT))
    ensures WithinHeader(terms, WindowWrites(rhs, j, firstVT, lastVT))
  {
    forall w | w in RhsWrites(rhs, j, firstVT, lastVT)
      ensures w.row in terms && w.col in terms
    {
      var j' := RhsWritesSound(rhs, j, firstVT, lastVT, w);
      RhsWritesComplete(rhs, |rhs|, firstVT, lastVT, w, j');
    }
    forall w | w in WindowWrites(rhs, j, firstVT, lastVT)
      ensures w.row in terms && w.col in terms
    {
      WindowWritesNamed(rhs, j, firstVT, lastVT, w);
      RhsWritesComplete(rhs, |rhs|, firstVT, lastVT, w, j);
    }
  }

  /** When the header holds every terminal of the right sides and the
      FIRSTVT and LASTVT strings hold only such terminals, every write of
      buildPrecedenceTable finds its row and its column. */
  lemma HeaderCoversWrites(terms: seq<char>, prods: seq<Production>, firstVT: seq<VTEntry>, lastVT: seq<VTEntry>)
    requires forall c :: c in RhsTerminals(prods) ==> c in terms
    requires Sound(prods, firstVT) && Sound(prods, lastVT)
    requires RowsWellFormed(firstVT) && RowsWellFormed(lastVT)
    ensures WithinHeader(terms, TableWriteList(prods, firstVT, lastVT))
  {
    RhsTerminalsMembers(prods);
    forall w | w in TableWriteList(prods, firstVT, lastVT)
      ensures w.row in terms && w.col in terms
    {
      var i, j := TableWritesSound(prods, firstVT, lastVT, w);
      var rhs := prods[i].rhs;
      assert OccursInRhs(prods, rhs[j]) && OccursInRhs(prods, rhs[j + 1]);
      if j + 2 < |rhs| {
        assert OccursInRhs(prods, rhs[j + 2]);
      }
      RowTerminals(prods, firstVT, rhs[j + 1]);
      RowTerminals(prods, lastVT, rhs[j]);
    }
  }

  lemma RowTerminals(prods: seq<Production>, vt: seq<VTEntry>, c: char)
    requires Sound(prods, vt) && RowsWellFormed(vt)
    ensures forall t :: t in RowOf(vt, c) ==> OccursInRhs(prods, t) && !IsNonTerminal(t)
  {
    if c in Symbols(vt) {
      var r := IndexOf(Symbols(vt), c);
      assert WellFormed(vt[r].terminals);
      forall t | t in RowOf(vt, c) ensures OccursInRhs(prods, t) && !IsNonTerminal(t) {
        var k :| 0 <= k < |vt[r].terminals| && vt[r].terminals[k] == t;
      }
    }
  }

  /** The table buildPrecedenceTable leaves in a blank grid: a cell is blank
      exactly when no rule names it, and otherwise holds the value of a rule
      that names it. */
  lemma BuiltCell(terms: seq<char>, prods: seq<Production>, firstVT: seq<VTEntry>, lastVT: seq<VTEntry>, a: char, b: char)
    requires NoDup(terms) && WithinHeader(terms, TableWriteList(prods, firstVT, lastVT))
    ensures var r := Relation(terms, ApplyToGrid(Blank(|terms|), terms, TableWriteList(prods, firstVT, lastVT)), a, b);
            && (r != ' ' ==> Named(prods, firstVT, lastVT, a, b, r))
            && (forall v :: Named(prods, firstVT, lastVT, a, b, v) ==> r != ' ')
            && (r == ' ' || r == '=' || r == '<' || r == '>')
  {
    var ws := TableWriteList(prods, firstVT, lastVT);
    var g := ApplyToGrid(Blank(|terms|), terms, ws);
    forall v | Named(prods, firstVT, lastVT, a, b, v)
      ensures a in terms && b in terms && LastValue(ws, a, b).Some?
    {
      NamedIsWritten(prods, firstVT, lastVT, a, b, v);
    }
    if a in terms && b in terms {
      ApplyToGridAt(Blank(|terms|), terms, ws, a, b);
      var r := g[IndexOf(terms, a)][IndexOf(terms, b)];
      if LastValue(ws, a, b).Some? {
        LastWriteNamed(prods, firstVT, lastVT, a, b);
        assert r == LastValue(ws, a, b).value;
      } else {
        assert r == ' ';
      }
    }
  }

  /** A named cell is written. */
  lemma NamedIsWritten(prods: seq<Production>, firstVT: seq<VTEntry>, lastVT: seq<VTEntry>, a: char, b: char, v: char)
    requires Named(prods, firstVT, lastVT, a, b, v)
    ensures Write(a, b, v) in TableWriteList(prods, firstVT, lastVT)
    ensures LastValue(TableWriteList(prods, firstVT, lastVT), a, b).Some?
  {
    var ws := TableWriteList(prods, firstVT, lastVT);
    TableWritesNamed(prods, firstVT, lastVT, Write(a, b, v));
    var k :| 0 <= k < |ws| && ws[k] == Write(a, b, v);
  }

  /** The last write to a cell is named by a rule. */
  lemma LastWriteNamed(prods: seq<Production>, firstVT: seq<VTEntry>, lastVT: seq<VTEntry>, a: char, b: char)
    requires LastValue(TableWriteList(prods, firstVT, lastVT), a, b).Some?
    ensures var v := LastValue(TableWriteList(prods, firstVT, lastVT), a, b).value;
            Named(prods, firstVT, lastVT, a, b, v) && (v == '=' || v == '<' || v == '>')
  {
    var ws := TableWriteList(prods, firstVT, lastVT);
    var v := LastValue(ws, a, b).value;
    var k :| 0 <= k < |ws| && ws[k] == Write(a, b, v);
    TableWritesNamed(prods, firstVT, lastVT, ws[k]);
  }

  /** A cell that the rules name with a single value holds that value: the
      grammar is an operator precedence grammar at that cell. */
  lemma BuiltCellUnique(terms: seq<char>, prods: seq<Production>, firstVT: seq<VTEntry>, lastVT: seq<VTEntry>,
                        a: char, b: char, v: char)
    requires NoDup(terms) && WithinHeader(terms, TableWriteList(prods, firstVT, lastVT))
    requires Named(prods, firstVT, lastVT, a, b, v)
    requires forall v' :: Named(prods, firstVT, lastVT, a, b, v') ==> v' == v
    ensures Relation(terms, ApplyToGrid(Blank(|terms|), terms, TableWriteList(prods, firstVT, lastVT)), a, b) == v
  {
    BuiltCell(terms, prods, firstVT, lastVT, a, b);
  }

  class ParsingData {
    /** The header terminals, precedenceTable[k][0] == precedenceTable[0][k] == terminals[k-1]. */
    var terminals: seq<char>
    /** The interior, precedenceTable[r][c] == relations[r-1][c-1]. */
    var relations: seq<seq<char>>
    var analysisTable: seq<TraceRow>
    var currentStep: int
    var matchedProduction: int

    constructor ()
      ensures terminals == [] && relations == [] && analysisTable == []
      ensures currentStep == 1 && matchedProduction == 0
    {
      terminals, relations, analysisTable := [], [], [];
      currentStep, matchedProduction := 1, 0;
    }

    /** findTerminalIndex: the 1-based header position of c, or -1. */
    method FindTerminalIndex(c: char) returns (r: int)
      ensures c in terminals ==> r == IndexOf(terminals, c) + 1
      ensures c !in terminals ==> r == -1
    {
      var i := 1;
      while i <= |terminals|
        invariant 1 <= i <= |terminals| + 1
        invariant c !in terminals[..i - 1]
      {
        if terminals[i - 1] == c {
          return i;
        }
        assert terminals[..i] == terminals[..i - 1] + [terminals[i - 1]];
        i := i + 1;
      }
      assert terminals[..i - 1] == terminals;
      r := -1;
    }

    /** initPrecedenceTable: appends to the header every terminal of the right
        sides not there yet, in order, then blanks every interior cell. */
    method InitPrecedenceTable(grammar: Grammar)
      modifies this`terminals, this`relations
      ensures terminals == InsertAll(old(terminals), RhsTerminals(grammar.productions))
      ensures relations == Blank(|terminals|)
    {
      ghost var prods := grammar.productions;
      var i := 0;
      while i < |grammar.productions|
        invariant 0 <= i <= |prods|
        invariant terminals == InsertAll(old(terminals), RhsTerminals(prods[..i]))
      {
        AddHeaders(grammar.productions[i].rhs);
        assert prods[..i + 1][..i] == prods[..i];
        InsertAllConcat(old(terminals), RhsTerminals(prods[..i]), NonUpper(prods[i].rhs));
        i := i + 1;
      }
      assert prods[..i] == prods;
      var n := |terminals|;
      var table: seq<seq<char>> := [];
      var row := 0;
      while row < n
        invariant 0 <= row <= n
        invariant table == Blank(n)[..row]
      {
        var line: seq<char> := [];
        var col := 0;
        while col < n
          invariant 0 <= col <= n
          invariant line == Blank(n)[row][..col]
        {
          line := line + [' '];
          col := col + 1;
        }
        assert line == Blank(n)[row];
        table := table + [line];
        row := row + 1;
      }
      relations := table;
    }

    /** The loop of initPrecedenceTable over one right side. */
    method AddHeaders(rightSide: seq<char>)
      modifies this`terminals
      ensures terminals == InsertAll(old(terminals), NonUpper(rightSide))
    {
      var j := 0;
      while j < |rightSide|
        invariant 0 <= j <= |rightSide|
        invariant terminals == InsertAll(old(terminals), NonUpper(rightSide[..j]))
      {
        var c := rightSide[j];
        NonUpperPrefix(rightSide, j);
        if !IsNonTerminal(c) {
          AddHeader(c);
          InsertAllSnoc(old(terminals), NonUpper(rightSide[..j]), c);
        } else {
          assert NonUpper(rightSide[..j + 1]) == NonUpper(rightSide[..j]);
        }
        j := j + 1;
      }
      assert rightSide[..j] == rightSide;
    }

    /** The scan of initPrecedenceTable for one terminal: appended to the
        header (as row and column header) unless already there. */
    method AddHeader(c: char)
      modifies this`terminals
      ensures terminals == Insert(old(terminals), c)
    {
      var alreadyExists := false;
      var k := 1;
      while k <= |terminals|
        invariant 1 <= k <= |terminals| + 1
        invariant !alreadyExists ==> c !in terminals[..k - 1]
        invariant alreadyExists ==> c in terminals
      {
        if terminals[k - 1] == c {
          alreadyExists := true;
          break;
        }
        assert terminals[..k] == terminals[..k - 1] + [terminals[k - 1]];
        k := k + 1;
      }
      if !alreadyExists {
        assert terminals[..k - 1] == terminals;
        terminals := terminals + [c];
      }
    }

    /** getPrecedenceRelation: the relation between a and b; blank when either
        is not a header terminal (where the source reads outside its table). */
    method GetPrecedenceRelation(a: char, b: char) returns (rel: char)
      requires Square(relations, |terminals|)
      ensures rel == Relation(terminals, relations, a, b)
    {
      var rowIdx := FindTerminalIndex(a);
      var colIdx := FindTerminalIndex(b);
      if rowIdx == -1 || colIdx == -1 {
        return ' ';
      }
      rel := relations[rowIdx - 1][colIdx - 1];
    }

    /** One cell write: precedenceTable[rowIdx][colIdx] = v for two header terminals. */
    method SetCell(a: char, b: char, v: char)
      requires Square(relations, |terminals|) && a in terminals && b in terminals
      modifies this`relations
      ensures relations == ApplyToGrid(old(relations), terminals, [Write(a, b, v)])
    {
      var rowIdx := FindTerminalIndex(a);
      var colIdx := FindTerminalIndex(b);
      relations := relations[rowIdx - 1 := relations[rowIdx - 1][colIdx - 1 := v]];
    }
  
    /** buildPrecedenceTable: runs the four rules over every position of every
        right side, in order; a later write to a cell overwrites an earlier one. */
    method BuildPrecedenceTable(grammar: Grammar, sets: PrecedenceSets)
      requires sets.Valid() && Square(relations, |terminals|)
      requires RowsKnown(grammar.productions, Symbols(sets.firstVT))
      requires WithinHeader(terminals, TableWriteList(grammar.productions, sets.firstVT, sets.lastVT))
      modifies this`relations
      ensures relations == ApplyToGrid(old(relations), terminals,
                                       TableWriteList(grammar.productions, sets.firstVT, sets.lastVT))
    {
      ghost var prods, fv, lv := grammar.productions, sets.firstVT, sets.lastVT;
      var i := 0;
      while i < |grammar.productions|
        invariant 0 <= i <= |prods|
        invariant Square(relations, |terminals|)
        invariant WithinHeader(terminals, TableWriteList(prods[..i], fv, lv))
        invariant relations == ApplyToGrid(old(relations), terminals, TableWriteList(prods[..i], fv, lv))
      {
        ghost var before := relations;
        WithinHeaderParts(terminals, prods, i, fv, lv);
        assert prods[..i + 1][..i] == prods[..i];
        ApplyRightSide(grammar.productions[i].rhs, sets);
        ApplyToGridConcat(old(relations), terminals, TableWriteList(prods[..i], fv, lv),
                          RhsWrites(prods[i].rhs, |prods[i].rhs|, fv, lv));
        i := i + 1;
      }
      assert prods[..i] == prods;
    }

    /** The loop of buildPrecedenceTable over the positions of one right side. */
    method ApplyRightSide(rightSide: seq<char>, sets: PrecedenceSets)
      requires sets.Valid() && Square(relations, |terminals|)
      requires RowsKnownIn(rightSide, Symbols(sets.firstVT))
      requires WithinHeader(terminals, RhsWrites(rightSide, |rightSide|, sets.firstVT, sets.lastVT))
      modifies this`relations
      ensures relations == ApplyToGrid(old(relations), terminals,
                                       RhsWrites(rightSide, |rightSide|, sets.firstVT, sets.lastVT))
    {
      ghost var fv, lv := sets.firstVT, sets.lastVT;
      var j := 0;
      while j < |rightSide|
        invariant 0 <= j <= |rightSide|
        invariant Square(relations, |terminals|)
        invariant WithinHeader(terminals, RhsWrites(rightSide, j, fv, lv))
        invariant relations == ApplyToGrid(old(relations), terminals, RhsWrites(rightSide, j, fv, lv))
      {
        RhsWritesParts(terminals, rightSide, j, fv, lv);
        ApplyWindow(rightSide, j, sets);
        ApplyToGridConcat(old(relations), terminals, RhsWrites(rightSide, j, fv, lv), WindowWrites(rightSide, j, fv, lv));
        assert RhsWrites(rightSide, j + 1, fv, lv) == RhsWrites(rightSide, j, fv, lv) + WindowWrites(rightSide, j, fv, lv);
        j := j + 1;
      }
    }

    /** Rules 1 to 4 at position j of a right side. */
    method ApplyWindow(rightSide: seq<char>, j: nat, sets: PrecedenceSets)
      requires sets.Valid() && Square(relations, |terminals|)
      requires RowsKnownIn(rightSide, Symbols(sets.firstVT))
      requires WithinHeader(terminals, WindowWrites(rightSide, j, sets.firstVT, sets.lastVT))
      modifies this`relations
      ensures relations == ApplyToGrid(old(relations), terminals, WindowWrites(rightSide, j, sets.firstVT, sets.lastVT))
    {
      ghost var fv, lv := sets.firstVT, sets.lastVT;
      ghost var r1, r2, r3, r4 := Rule1(rightSide, j), Rule2(rightSide, j), Rule3(rightSide, j, fv), Rule4(rightSide, j, lv);
      assert WindowWrites(rightSide, j, fv, lv) == r1 + r2 + r3 + r4;
      assert WithinHeader(terminals, r1) && WithinHeader(terminals, r2);
      assert WithinHeader(terminals, r3) && WithinHeader(terminals, r4);
      ghost var g0 := relations;
      if j + 1 < |rightSide| && !IsNonTerminal(rightSide[j]) && !IsNonTerminal(rightSide[j + 1]) {
        assert Write(rightSide[j], rightSide[j + 1], '=') in r1;
        SetCell(rightSide[j], rightSide[j + 1], '=');
      }
      assert relations == ApplyToGrid(g0, terminals, r1);
      ghost var g1 := relations;
      if j + 2 < |rightSide| && !IsNonTerminal(rightSide[j]) && IsNonTerminal(rightSide[j + 1]) &&
         !IsNonTerminal(rightSide[j + 2]) {
        assert Write(rightSide[j], rightSide[j + 2], '=') in r2;
        SetCell(rightSide[j], rightSide[j + 2], '=');
      }
      assert relations == ApplyToGrid(g1, terminals, r2);
      ghost var g2 := relations;
      if j + 1 < |rightSide| && !IsNonTerminal(rightSide[j]) && IsNonTerminal(rightSide[j + 1]) {
        var ntIdx := sets.FindNonTerminalIndex(rightSide[j + 1]);
        LessAll(rightSide[j], sets.firstVT[ntIdx].terminals);
      }
      assert relations == ApplyToGrid(g2, terminals, r3);
      ghost var g3 := relations;
      if j + 1 < |rightSide| && IsNonTerminal(rightSide[j]) && !IsNonTerminal(rightSide[j + 1]) {
        var ntIdx := sets.FindNonTerminalIndex(rightSide[j]);
        GreaterAll(sets.lastVT[ntIdx].terminals, rightSide[j + 1]);
      }
      assert relations == ApplyToGrid(g3, terminals, r4);
      ApplyToGridConcat(g0, terminals, r1, r2);
      ApplyToGridConcat(g0, terminals, r1 + r2, r3);
      ApplyToGridConcat(g0, terminals, r1 + r2 + r3, r4);
    }

    /** The inner loop of rule 3: a < t for each t of ts, in order. */
    method LessAll(a: char, ts: seq<char>)
      requires Square(relations, |terminals|) && WithinHeader(terminals, LessWrites(a, ts))
      modifies this`relations
      ensures relations == ApplyToGrid(old(relations), terminals, LessWrites(a, ts))
    {
      var k := 0;
      while k < |ts|
        invariant 0 <= k <= |ts|
        invariant Square(relations, |terminals|)
        invariant WithinHeader(terminals, LessWrites(a, ts[..k]))
        invariant relations == ApplyToGrid(old(relations), terminals, LessWrites(a, ts[..k]))
      {
        var w := Write(a, ts[k], '<');
        LessWritesMembers(a, ts, w);
        assert ts[..k + 1][..k] == ts[..k];
        assert LessWrites(a, ts[..k + 1]) == LessWrites(a, ts[..k]) + [w];
        SetCell(a, ts[k], '<');
        ApplyToGridConcat(old(relations), terminals, LessWrites(a, ts[..k]), [w]);
        k := k + 1;
      }
      assert ts[..k] == ts;
    }

    /** The inner loop of rule 4: t > b for each t of ts, in order. */
    method GreaterAll(ts: seq<char>, b: char)
      requires Square(relations, |terminals|) && WithinHeader(terminals, GreaterWrites(ts, b))
      modifies this`relations
      ensures relations == ApplyToGrid(old(relations), terminals, GreaterWrites(ts, b))
    {
      var k := 0;
      while k < |ts|
        invariant 0 <= k <= |ts|
        invariant Square(relations, |terminals|)
        invariant WithinHeader(terminals, GreaterWrites(ts[..k], b))
        invariant relations == ApplyToGrid(old(relations), terminals, GreaterWrites(ts[..k], b))
      {
        var w := Write(ts[k], b, '>');
        GreaterWritesMembers(ts, b, w);
        assert ts[..k + 1][..k] == ts[..k];
        assert GreaterWrites(ts[..k + 1], b) == GreaterWrites(ts[..k], b) + [w];
        SetCell(ts[k], b, '>');
        ApplyToGridConcat(old(relations), terminals, GreaterWrites(ts[..k], b), [w]);
        k := k + 1;
      }
      assert ts[..k] == ts;
    }
  }
}

/** main.cpp, BuildPriorityTable: the operator precedence table kept as a
    map from (row terminal, column terminal) to '<', '=' or '>'. Four rules
    are tried at every position of every right side, in order, and then
    the boundary rule for the start symbol 'E' and the end marker '#'; a
    later write to a cell replaces an earlier one. What the table holds is
    stated through the sequence of writes (`AllWrites`) and TableWrites. */
module RuleTable {
  import opened Seqs
  import opened TableWrites
  import opened RuleGrammar
  import opened RuleVT

  type Table = map<(char, char), char>

  /** What BuildPriorityTable reads besides the grammar. */
  datatype Env = Env(terms: seq<char>, nts: seq<char>, fv: VTMap, lv: VTMap)

  /** rule.substr(3) throws on a rule shorter than three characters. */
  predicate RightsOk(grammar: seq<seq<char>>) {
    forall r :: 0 <= r < |grammar| ==> 3 <= |grammar[r]|
  }

  function Rights(rule: seq<char>): seq<char>
    requires 3 <= |rule|
  {
    rule[3..]
  }

  /** The writes of rule 1 (ab), rule 2 (aBc), rule 3 (aB) and rule 4 (Ab)
      at position i of a right side, in that order. */
  function Rule1(rights: seq<char>, i: nat, env: Env): seq<Write> {
    if i + 1 < |rights| && rights[i] in env.terms && rights[i + 1] in env.terms
    then [Write(rights[i], rights[i + 1], '=')] else []
  }

  function Rule2(rights: seq<char>, i: nat, env: Env): seq<Write> {
    if i + 2 < |rights| && rights[i] in env.terms && rights[i + 1] in env.nts && rights[i + 2] in env.terms
    then [Write(rights[i], rights[i + 2], '=')] else []
  }

  function Rule3(rights: seq<char>, i: nat, env: Env): seq<Write> {
    if i + 1 < |rights| && rights[i] in env.terms && rights[i + 1] in env.nts
    then LessWrites(rights[i], Get(env.fv, rights[i + 1])) else []
  }

  function Rule4(rights: seq<char>, i: nat, env: Env): seq<Write> {
    if i + 1 < |rights| && rights[i] in env.nts && rights[i + 1] in env.terms
    then GreaterWrites(Get(env.lv, rights[i]), rights[i + 1]) else []
  }

  function WindowWrites(rights: seq<char>, i: nat, env: Env): seq<Write> {
    Rule1(rights, i, env) + Rule2(rights, i, env) + Rule3(rights, i, env) + Rule4(rights, i, env)
  }

  /** The writes of each position of a right side. */
  function Windows(rights: seq<char>, env: Env): nat -> seq<Write> {
    (i: nat) => WindowWrites(rights, i, env)
  }

  /** The writes for positions 0 .. n-1 of a right side. */
  function RightsWrites(rights: seq<char>, n: nat, env: Env): seq<Write> {
    Concat(Windows(rights, env), n)
  }

  /** The writes of the loop over the rules, in order. */
  function GrammarWrites(grammar: seq<seq<char>>, env: Env): seq<Write>
    requires RightsOk(grammar)
    decreases |grammar|
  {
    if |grammar| == 0 then []
    else
      var rights := Rights(grammar[|grammar| - 1]);
      GrammarWrites(grammar[..|grammar| - 1], env) + RightsWrites(rights, |rights|, env)
  }

  /** Rule 5 (E -> #E#): # < FIRSTVT(E), LASTVT(E) > #, then # = #, when
      '#' is a terminal. */
  function BoundaryWrites(env: Env): seq<Write> {
    if '#' in env.terms
    then LessWrites('#', Get(env.fv, 'E')) + GreaterWrites(Get(env.lv, 'E'), '#') + [Write('#', '#', '=')]
    else []
  }

  /** Every write BuildPriorityTable performs, in order. */
  function AllWrites(grammar: seq<seq<char>>, env: Env): seq<Write>
    requires RightsOk(grammar)
  {
    GrammarWrites(grammar, env) + BoundaryWrites(env)
  }

  /** The rule that names cell (a, b) with value v at position i of rights. */
  predicate NamedAt(rights: seq<char>, i: int, env: Env, a: char, b: char, v: char) {
    0 <= i && i + 1 < |rights| &&
    ( (v == '=' && rights[i] in env.terms && rights[i + 1] in env.terms && a == rights[i] && b == rights[i + 1])
    || (v == '=' && i + 2 < |rights| && rights[i] in env.terms && rights[i + 1] in env.nts && rights[i + 2] in env.terms
        && a == rights[i] && b == rights[i + 2])
    || (v == '<' && rights[i] in env.terms && rights[i + 1] in env.nts && a == rights[i] && b in Get(env.fv, rights[i + 1]))
    || (v == '>' && rights[i] in env.nts && rights[i + 1] in env.terms && a in Get(env.lv, rights[i]) && b == rights[i + 1]))
  }

  /** Some rule of the grammar names cell (a, b) with value v. */
  predicate Named(grammar: seq<seq<char>>, env: Env, a: char, b: char, v: char)
    requires RightsOk(grammar)
  {
    exists r, i :: 0 <= r < |grammar| && 0 <= i < |Rights(grammar[r])| && NamedAt(Rights(grammar[r]), i, env, a, b, v)
  }

  /** Rule 5 names cell (a, b) with value v. */
  predicate BoundaryNamed(env: Env, a: char, b: char, v: char) {
    '#' in env.terms &&
    ( (v == '<' && a == '#' && b in Get(env.fv, 'E'))
    || (v == '>' && a in Get(env.lv, 'E') && b == '#')
    || (v == '=' && a == '#' && b == '#'))
  }

  // ---------------------------------------------------------------------
  // The writes are exactly the named cells
  // ---------------------------------------------------------------------

  lemma WindowWritesNamed(rights: seq<char>, i: nat, env: Env, w: Write)
    ensures w in WindowWrites(rights, i, env) <==> NamedAt(rights, i, env, w.row, w.col, w.value)
  {
    if i + 1 < |rights| {
      LessWritesMembers(rights[i], Get(env.fv, rights[i + 1]), w);
      GreaterWritesMembers(Get(env.lv, rights[i]), rights[i + 1], w);
    }
  }

  lemma RightsWritesSound(rights: seq<char>, n: nat, env: Env, w: Write) returns (i: nat)
    requires w in RightsWrites(rights, n, env)
    ensures i < n && NamedAt(rights, i, env, w.row, w.col, w.value)
  {
    i := ConcatSound(Windows(rights, env), n, w);
    assert w in WindowWrites(rights, i, env);
    WindowWritesNamed(rights, i, env, w);
  }

  lemma RightsWritesComplete(rights: seq<char>, n: nat, env: Env, w: Write, i: nat)
    requires i < n && NamedAt(rights, i, env, w.row, w.col, w.value)
    ensures w in RightsWrites(rights, n, env)
  {
    WindowWritesNamed(rights, i, env, w);
    assert w in Windows(rights, env)(i);
    ConcatComplete(Windows(rights, env), n, w, i);
  }

  lemma {:induction false} GrammarWritesSound(grammar: seq<seq<char>>, env: Env, w: Write) returns (r: nat, i: nat)
    requires RightsOk(grammar) && w in GrammarWrites(grammar, env)
    ensures r < |grammar| && i < |Rights(grammar[r])| && NamedAt(Rights(grammar[r]), i, env, w.row, w.col, w.value)
    decreases |grammar|
  {
    var init, last := grammar[..|grammar| - 1], Rights(grammar[|grammar| - 1]);
    if w in RightsWrites(last, |last|, env) {
      r := |grammar| - 1;
      i := RightsWritesSound(last, |last|, env, w);
    } else {
      r, i := GrammarWritesSound(init, env, w);
      assert grammar[r] == init[r];
    }
  }

  lemma {:induction false} GrammarWritesComplete(grammar: seq<seq<char>>, env: Env, w: Write, r: nat, i: nat)
    requires RightsOk(grammar)
    requires r < |grammar| && i < |Rights(grammar[r])| && NamedAt(Rights(grammar[r]), i, env, w.row, w.col, w.value)
    ensures w in GrammarWrites(grammar, env)
    decreases |grammar|
  {
    var init, last := grammar[..|grammar| - 1], Rights(grammar[|grammar| - 1]);
    if r == |grammar| - 1 {
      RightsWritesComplete(last, |last|, env, w, i);
    } else {
      assert grammar[r] == init[r];
      GrammarWritesComplete(init, env, w, r, i);
    }
  }

  /** A write of the rule loop is one that rules 1 to 4 name, and every
      such cell is written. */
  lemma GrammarWritesNamed(grammar: seq<seq<char>>, env: Env, w: Write)
    requires RightsOk(grammar)
    ensures w in GrammarWrites(grammar, env) <==> Named(grammar, env, w.row, w.col, w.value)
  {
    if w in GrammarWrites(grammar, env) {
      var r, i := GrammarWritesSound(grammar, env, w);
    }
    if Named(grammar, env, w.row, w.col, w.value) {
      var r, i :| 0 <= r < |grammar| && 0 <= i < |Rights(grammar[r])| &&
                  NamedAt(Rights(grammar[r]), i, env, w.row, w.col, w.value);
      GrammarWritesComplete(grammar, env, w, r, i);
    }
  }

  lemma BoundaryWritesNamed(env: Env, w: Write)
    ensures w in BoundaryWrites(env) <==> BoundaryNamed(env, w.row, w.col, w.value)
  {
    if '#' in env.terms {
      LessWritesMembers('#', Get(env.fv, 'E'), w);
      GreaterWritesMembers(Get(env.lv, 'E'), '#', w);
    }
  }

  /** Every write names a cell through rules 1 to 5 with its value. */
  lemma AllWritesNamed(grammar: seq<seq<char>>, env: Env, w: Write)
    requires RightsOk(grammar)
    ensures w in AllWrites(grammar, env) <==>
            Named(grammar, env, w.row, w.col, w.value) || BoundaryNamed(env, w.row, w.col, w.value)
  {
    GrammarWritesNamed(grammar, env, w);
    BoundaryWritesNamed(env, w);
  }

  // ---------------------------------------------------------------------
  // The table
  // ---------------------------------------------------------------------

  /** The table BuildPriorityTable returns holds a cell exactly when some
      rule names it, and then a value that some rule names it with. */
  lemma BuiltCell(grammar: seq<seq<char>>, env: Env, a: char, b: char)
    requires RightsOk(grammar)
    ensures var t := ApplyToMap(map[], AllWrites(grammar, env));
            && ((a, b) in t <==> exists v :: Named(grammar, env, a, b, v) || BoundaryNamed(env, a, b, v))
            && ((a, b) in t ==> Named(grammar, env, a, b, t[(a, b)]) || BoundaryNamed(env, a, b, t[(a, b)]))
            && ((a, b) in t ==> t[(a, b)] == '=' || t[(a, b)] == '<' || t[(a, b)] == '>')
  {
    var ws := AllWrites(grammar, env);
    ApplyToMapAt(map[], ws, a, b);
    if LastValue(ws, a, b).Some? {
      var k :| 0 <= k < |ws| && ws[k] == Write(a, b, LastValue(ws, a, b).value);
      AllWritesNamed(grammar, env, ws[k]);
    }
    forall v | Named(grammar, env, a, b, v) || BoundaryNamed(env, a, b, v)
      ensures LastValue(ws, a, b).Some?
    {
      AllWritesNamed(grammar, env, Write(a, b, v));
      var k :| 0 <= k < |ws| && ws[k] == Write(a, b, v);
    }
  }

  /** A cell that the rules name with a single value holds that value. */
  lemma BuiltCellUnique(grammar: seq<seq<char>>, env: Env, a: char, b: char, v: char)
    requires RightsOk(grammar)
    requires Named(grammar, env, a, b, v) || BoundaryNamed(env, a, b, v)
    requires forall v' :: Named(grammar, env, a, b, v') || BoundaryNamed(env, a, b, v') ==> v' == v
    ensures (a, b) in ApplyToMap(map[], AllWrites(grammar, env))
    ensures ApplyToMap(map[], AllWrites(grammar, env))[(a, b)] == v
  {
    BuiltCell(grammar, env, a, b);
  }

  /** Rule 5 comes last and overrides the rule loop: # = #, # < t for t in
      FIRSTVT(E) and t > # for t in LASTVT(E), whatever the grammar says
      about those cells (apart from t == '#'). */
  lemma BoundaryWins(grammar: seq<seq<char>>, env: Env, t: char)
    requires RightsOk(grammar) && '#' in env.terms
    ensures var m := ApplyToMap(map[], AllWrites(grammar, env));
            && ('#', '#') in m && m[('#', '#')] == '='
            && (t in Get(env.fv, 'E') && t != '#' ==> ('#', t) in m && m[('#', t)] == '<')
            && (t in Get(env.lv, 'E') && t != '#' ==> (t, '#') in m && m[(t, '#')] == '>')
  {
    var g := GrammarWrites(grammar, env);
    var less, greater := LessWrites('#', Get(env.fv, 'E')), GreaterWrites(Get(env.lv, 'E'), '#');
    var last := [Write('#', '#', '=')];
    var ws := AllWrites(grammar, env);
    assert ws == g + (less + greater + last);
    LastValueConcat(g, less + greater + last, '#', '#');
    ApplyToMapAt(map[], ws, '#', '#');
    if t != '#' {
      LastValueConcat(g, less + greater + last, '#', t);
      LastValueConcat(less + greater, last, '#', t);
      LastValueConcat(less, greater, '#', t);
      LastValueConcat(g, less + greater + last, t, '#');
      LastValueConcat(less + greater, last, t, '#');
      LastValueConcat(less, greater, t, '#');
      ApplyToMapAt(map[], ws, '#', t);
      ApplyToMapAt(map[], ws, t, '#');
      if t in Get(env.fv, 'E') {
        LessWritesMembers('#', Get(env.fv, 'E'), Write('#', t, '<'));
        forall k | 0 <= k < |greater| ensures greater[k].col == '#' {
          GreaterWritesMembers(Get(env.lv, 'E'), '#', greater[k]);
        }
        var k :| 0 <= k < |less| && less[k] == Write('#', t, LastValue(less, '#', t).value);
        LessWritesMembers('#', Get(env.fv, 'E'), less[k]);
      }
      if t in Get(env.lv, 'E') {
        GreaterWritesMembers(Get(env.lv, 'E'), '#', Write(t, '#', '>'));
        var k :| 0 <= k < |greater| && greater[k] == Write(t, '#', LastValue(greater, t, '#').value);
        GreaterWritesMembers(Get(env.lv, 'E'), '#', greater[k]);
      }
    }
  }

  // ---------------------------------------------------------------------
  // The loops
  // ---------------------------------------------------------------------

  /** BuildPriorityTable. */
  method BuildPriorityTable(grammar: seq<seq<char>>, terminals: seq<char>, nonTerminals: seq<char>,
                            firstVT: VTMap, lastVT: VTMap)
    returns (priorityTable: Table)
    requires RightsOk(grammar)
    ensures priorityTable == ApplyToMap(map[], AllWrites(grammar, Env(terminals, nonTerminals, firstVT, lastVT)))
  {
    var env := Env(terminals, nonTerminals, firstVT, lastVT);
    priorityTable := map[];
    var r := 0;
    while r < |grammar|
      invariant 0 <= r <= |grammar|
      invariant priorityTable == ApplyToMap(map[], GrammarWrites(grammar[..r], env))
    {
      var rights := grammar[r][3..];
      priorityTable := ApplyRights(priorityTable, rights, env);
      assert grammar[..r + 1][..r] == grammar[..r];
      ApplyToMapConcat(map[], GrammarWrites(grammar[..r], env), RightsWrites(rights, |rights|, env));
      r := r + 1;
    }
    assert grammar[..r] == grammar;
    priorityTable := ApplyBoundary(priorityTable, env);
    ApplyToMapConcat(map[], GrammarWrites(grammar, env), BoundaryWrites(env));
  }

  /** The loop over the positions of one right side. */
  method ApplyRights(table: Table, rights: seq<char>, env: Env) returns (table': Table)
    ensures table' == ApplyToMap(table, RightsWrites(rights, |rights|, env))
  {
    table' := table;
    var i := 0;
    while i < |rights|
      invariant 0 <= i <= |rights|
      invariant table' == ApplyToMap(table, RightsWrites(rights, i, env))
    {
      table' := ApplyWindow(table', rights, i, env);
      ApplyToMapConcat(table, RightsWrites(rights, i, env), WindowWrites(rights, i, env));
      assert RightsWrites(rights, i + 1, env) == RightsWrites(rights, i, env) + WindowWrites(rights, i, env);
      i := i + 1;
    }
  }

  /** Rules 1 to 4 at position i. */
  method ApplyWindow(table: Table, rights: seq<char>, i: nat, env: Env) returns (table': Table)
    requires i < |rights|
    ensures table' == ApplyToMap(table, WindowWrites(rights, i, env))
  {
    ghost var r1, r2, r3, r4 := Rule1(rights, i, env), Rule2(rights, i, env), Rule3(rights, i, env), Rule4(rights, i, env);
    table' := table;
    if i < |rights| - 1 {
      var a, b := rights[i], rights[i + 1];
      var aIsTerminal := IsListed(a, env.terms);
      var bIsTerminal := IsListed(b, env.terms);
      if aIsTerminal && bIsTerminal {
        table' := table'[(a, b) := '='];
      }
    }
    assert table' == ApplyToMap(table, r1) by { SingleWrite(table, r1); }
    ghost var t1 := table';
    if i + 2 < |rights| {
      var a, b, c := rights[i], rights[i + 1], rights[i + 2];
      var aIsTerminal := IsListed(a, env.terms);
      var bIsNonTerminal := IsListed(b, env.nts);
      var cIsTerminal := IsListed(c, env.terms);
      if aIsTerminal && bIsNonTerminal && cIsTerminal {
        table' := table'[(a, c) := '='];
      }
    }
    assert table' == ApplyToMap(t1, r2) by { SingleWrite(t1, r2); }
    ghost var t2 := table';
    if i < |rights| - 1 {
      var a, b := rights[i], rights[i + 1];
      var aIsTerminal := IsListed(a, env.terms);
      var bIsNonTerminal := IsListed(b, env.nts);
      if aIsTerminal && bIsNonTerminal {
        table' := LessAll(table', a, Get(env.fv, b));
      }
    }
    if i < |rights| - 1 {
      var a, b := rights[i], rights[i + 1];
      var aIsNonTerminal := IsListed(a, env.nts);
      var bIsTerminal := IsListed(b, env.terms);
      if aIsNonTerminal && bIsTerminal {
        table' := GreaterAll(table', Get(env.lv, a), b);
      }
    }
    ApplyToMapConcat(table, r1, r2);
    ApplyToMapConcat(table, r1 + r2, r3);
    ApplyToMapConcat(table, r1 + r2 + r3, r4);
  }

  /** Applying no write or a single write. */
  lemma SingleWrite(m: Table, ws: seq<Write>)
    requires |ws| <= 1
    ensures ApplyToMap(m, ws) == if ws == [] then m else m[(ws[0].row, ws[0].col) := ws[0].value]
  {
    if |ws| == 1 {
      assert ws[..0] == [];
    }
  }

  /** a < t for each t of ts, in order. */
  method LessAll(table: Table, a: char, ts: seq<char>) returns (table': Table)
    ensures table' == ApplyToMap(table, LessWrites(a, ts))
  {
    table' := table;
    var k := 0;
    while k < |ts|
      invariant 0 <= k <= |ts|
      invariant table' == ApplyToMap(table, LessWrites(a, ts[..k]))
    {
      assert ts[..k + 1][..k] == ts[..k];
      table' := table'[(a, ts[k]) := '<'];
      k := k + 1;
    }
    assert ts[..k] == ts;
  }

  /** t > b for each t of ts, in order. */
  method GreaterAll(table: Table, ts: seq<char>, b: char) returns (table': Table)
    ensures table' == ApplyToMap(table, GreaterWrites(ts, b))
  {
    table' := table;
    var k := 0;
    while k < |ts|
      invariant 0 <= k <= |ts|
      invariant table' == ApplyToMap(table, GreaterWrites(ts[..k], b))
    {
      assert ts[..k + 1][..k] == ts[..k];
      table' := table'[(ts[k], b) := '>'];
      k := k + 1;
    }
    assert ts[..k] == ts;
  }

  /** Rule 5. */
  method ApplyBoundary(table: Table, env: Env) returns (table': Table)
    ensures table' == ApplyToMap(table, BoundaryWrites(env))
  {
    table' := table;
    var hashIsTerminal := IsListed('#', env.terms);
    if hashIsTerminal {
      ghost var less, greater := LessWrites('#', Get(env.fv, 'E')), GreaterWrites(Get(env.lv, 'E'), '#');
      table' := LessAll(table', '#', Get(env.fv, 'E'));
      ghost var t1 := table';
      table' := GreaterAll(table', Get(env.lv, 'E'), '#');
      ghost var t2 := table';
      table' := table'[('#', '#') := '='];
      SingleWrite(t2, [Write('#', '#', '=')]);
      ApplyToMapConcat(table, less, greater);
      ApplyToMapConcat(table, less + greater, [Write('#', '#', '=')]);
    }
  }
}

/** main.cpp, grammar side: the splitting of the lines of a grammar file at
    '|' (GetGrammar), the terminal and non-terminal inventories in order of
    first occurrence (GetTerminals, GetNonTerminals) and the list membership
    tests (IsTerminal, IsNonTerminal). A rule is a string "A->rhs": position
    0 holds the left side and the right side starts at position 3. */
module RuleGrammar {
  import opened Seqs
  import opened OPGrammar

  /** IsTerminal and IsNonTerminal: a linear scan of the list for ch. */
  method IsListed(ch: char, list: seq<char>) returns (r: bool)
    ensures r <==> ch in list
  {
    var k := 0;
    while k < |list|
      invariant 0 <= k <= |list|
      invariant ch !in list[..k]
    {
      if list[k] == ch {
        return true;
      }
      assert list[..k + 1] == list[..k] + [list[k]];
      k := k + 1;
    }
    assert list[..k] == list;
    return false;
  }

  // ---------------------------------------------------------------------
  // GetGrammar as written
  // ---------------------------------------------------------------------

  /** GetGrammar does not throw on the line: a line with a '|' has at least
      the three characters "A->" (substr(3, ...) throws on a shorter one). */
  predicate LineOk(line: seq<char>) {
    '|' in line ==> 3 <= |line|
  }

  /** `substr(3, j - 3)`: the text between the arrow and the '|' at j; for
      j < 3 the unsigned length wraps around and the rest of the line is
      taken. */
  function Before(line: seq<char>, j: nat): seq<char>
    requires 3 <= |line| && j <= |line|
  {
    if j >= 3 then line[3..j] else line[3..]
  }

  /** The two lines the loop of GetGrammar emits for the '|' at j:
      prefix + text before it, and prefix + everything after it. */
  function PairAt(line: seq<char>, j: nat): seq<seq<char>>
    requires 3 <= |line| && j < |line|
  {
    [line[..3] + Before(line, j), line[..3] + line[j + 1..]]
  }

  /** What the inner loop of GetGrammar has emitted after scanning line[..j]. */
  function BarPairs(line: seq<char>, j: nat): seq<seq<char>>
    requires j <= |line| && LineOk(line)
    decreases j
  {
    if j == 0 then []
    else BarPairs(line, j - 1) + (if line[j - 1] == '|' then PairAt(line, j - 1) else [])
  }

  /** The lines GetGrammar emits for one input line. */
  function SplitAsWritten(line: seq<char>): seq<seq<char>>
    requires LineOk(line)
  {
    if '|' in line then BarPairs(line, |line|) else [line]
  }

  predicate LinesOk(lines: seq<seq<char>>) {
    forall i :: 0 <= i < |lines| ==> LineOk(lines[i])
  }

  function SplitAllAsWritten(lines: seq<seq<char>>): seq<seq<char>>
    requires LinesOk(lines)
    decreases |lines|
  {
    if |lines| == 0 then []
    else SplitAllAsWritten(lines[..|lines| - 1]) + SplitAsWritten(lines[|lines| - 1])
  }

  /** The '|'-splitting loops of GetGrammar over the lines read from the file.
      None stands for the out_of_range exception that `substr(3, j - 3)`
      throws at the first '|' of a line shorter than three characters; it
      leaves GetGrammar, so no grammar is returned. */
  method GetGrammar(lines: seq<seq<char>>) returns (r: Option<seq<seq<char>>>)
    ensures r.None? <==> !LinesOk(lines)
    ensures r.Some? ==> LinesOk(lines) && r.value == SplitAllAsWritten(lines)
  {
    var grammar := [];
    var i := 0;
    while i < |lines|
      invariant 0 <= i <= |lines|
      invariant LinesOk(lines[..i])
      invariant grammar == SplitAllAsWritten(lines[..i])
    {
      var next := SplitInto(grammar, lines[i]);
      if next.None? {
        return None;
      }
      grammar := next.value;
      assert lines[..i + 1][..i] == lines[..i];
      i := i + 1;
    }
    assert lines[..i] == lines;
    return Some(grammar);
  }

  /** One pass of the inner loop of GetGrammar over line, appending to grammar;
      a line without '|' is appended whole, and a '|' in a line shorter than
      three characters throws (None). */
  method SplitInto(grammar: seq<seq<char>>, line: seq<char>) returns (r: Option<seq<seq<char>>>)
    ensures r.None? <==> !LineOk(line)
    ensures r.Some? ==> LineOk(line) && r.value == grammar + SplitAsWritten(line)
  {
    var grammar' := grammar;
    var flag := false;
    var j := 0;
    while j < |line|
      invariant 0 <= j <= |line|
      invariant flag <==> '|' in line[..j]
      invariant flag ==> 3 <= |line|
      invariant grammar' == grammar + (if 3 <= |line| then BarPairs(line, j) else [])
    {
      if line[j] == '|' {
        if |line| < 3 {
          return None;
        }
        var fixedString := line[..3];
        var previousGrammar := fixedString + (if j >= 3 then line[3..j] else line[3..]);
        var nextGrammar := fixedString + line[j + 1..];
        grammar' := grammar' + [previousGrammar, nextGrammar];
        flag := true;
      }
      assert line[..j + 1] == line[..j] + [line[j]];
      j := j + 1;
    }
    assert line[..j] == line;
    if !flag {
      PairsOverNoBar(line, 0, |line|);
      grammar' := grammar' + [line];
    }
    return Some(grammar');
  }

  /** No '|' in line[a..b]: the loop emits nothing while scanning it. */
  lemma {:induction false} PairsOverNoBar(line: seq<char>, a: nat, b: nat)
    requires a <= b <= |line| && LineOk(line)
    requires forall k :: a <= k < b ==> line[k] != '|'
    ensures BarPairs(line, b) == BarPairs(line, a)
    decreases b - a
  {
    if a < b {
      PairsOverNoBar(line, a, b - 1);
    }
  }

  /** A line with exactly one '|', at j after the arrow, becomes the two rules
      prefix + line[3..j] and prefix + line[j+1..]. */
  lemma OneBar(line: seq<char>, j: nat)
    requires 3 <= j < |line| && line[j] == '|'
    requires forall k :: 0 <= k < |line| && k != j ==> line[k] != '|'
    ensures SplitAsWritten(line) == [line[..3] + line[3..j], line[..3] + line[j + 1..]]
  {
    PairsOverNoBar(line, 0, j);
    PairsOverNoBar(line, j + 1, |line|);
  }

  // ---------------------------------------------------------------------
  // The evident intent: one rule per alternative
  // ---------------------------------------------------------------------

  /** The '|'-separated fields of s[i..], empty ones included. */
  function Fields(s: seq<char>, i: nat): (r: seq<seq<char>>)
    requires i <= |s|
    ensures |r| > 0
    decreases |s| - i
  {
    var k := NextBar(s, i);
    if k == |s| then [s[i..]] else [s[i..k]] + Fields(s, k + 1)
  }

  /** p put in front of every element of ps. */
  function Prefixed(p: seq<char>, ps: seq<seq<char>>): (r: seq<seq<char>>)
    ensures |r| == |ps| && forall i :: 0 <= i < |ps| ==> r[i] == p + ps[i]
  {
    seq(|ps|, i requires 0 <= i < |ps| => p + ps[i])
  }

  /** One rule "A->x" per alternative x of "A->x|y|...". */
  function SplitLine(line: seq<char>): seq<seq<char>> {
    if |line| < 3 then [line] else Prefixed(line[..3], Fields(line, 3))
  }

  /** The number of '|' in s. */
  function Bars(s: seq<char>): nat {
    multiset(s)['|']
  }

  /** The field starting at i runs up to the first '|' at or after i. */
  lemma FieldsCons(s: seq<char>, i: nat, k: nat)
    requires i <= k < |s| && s[k] == '|' && forall m :: i <= m < k ==> s[m] != '|'
    ensures Fields(s, i) == [s[i..k]] + Fields(s, k + 1)
  {
    NextBarIsFirst(s, i, k);
  }

  /** Without '|' in s[i..] there is one field, s[i..] itself. */
  lemma FieldsNoBar(s: seq<char>, i: nat)
    requires i <= |s| && forall m :: i <= m < |s| ==> s[m] != '|'
    ensures Fields(s, i) == [s[i..]]
  {
    NextBarIsFirst(s, i, |s|);
  }

  /** The fields contain no '|', there is one more of them than there are
      '|', and joined with '|' they give s[i..] back. */
  lemma {:induction false} FieldsFacts(s: seq<char>, i: nat)
    requires i <= |s|
    ensures Join(Fields(s, i)) == s[i..]
    ensures |Fields(s, i)| == Bars(s[i..]) + 1
    ensures forall k :: 0 <= k < |Fields(s, i)| ==> '|' !in Fields(s, i)[k]
    decreases |s| - i
  {
    var k := NextBar(s, i);
    if k == |s| {
      NoBarCount(s[i..]);
    } else {
      var x, rest := s[i..k], Fields(s, k + 1);
      assert Fields(s, i) == [x] + rest;
      FieldsFacts(s, k + 1);
      JoinCons(x, rest);
      var t := s[i..];
      assert t[..k - i] == x && t[k - i + 1..] == s[k + 1..];
      BarSplit(t, k - i);
      NoBarCount(x);
    }
  }

  lemma NoBarCount(s: seq<char>)
    requires forall m :: 0 <= m < |s| ==> s[m] != '|'
    ensures Bars(s) == 0 && '|' !in s
  {
  }

  /** s is the text before its '|' at k, the '|', and the text after it. */
  lemma BarSplit(s: seq<char>, k: nat)
    requires k < |s| && s[k] == '|'
    ensures s == s[..k] + "|" + s[k + 1..]
    ensures Bars(s) == Bars(s[..k]) + 1 + Bars(s[k + 1..])
  {
    assert s == s[..k] + [s[k]] + s[k + 1..];
  }

  /** The text after the arrow of every rule. */
  function Tails(rules: seq<seq<char>>): seq<seq<char>>
    requires forall k :: 0 <= k < |rules| ==> |rules[k]| >= 3
  {
    seq(|rules|, k requires 0 <= k < |rules| => rules[k][3..])
  }

  /** Splitting a line gives one rule per alternative: each keeps the line's
      "A->" and has no '|' after it, and the right sides joined with '|' are
      the line's right side. */
  lemma SplitLineSound(line: seq<char>)
    requires 3 <= |line|
    ensures var r := SplitLine(line);
            && |r| == Bars(line[3..]) + 1
            && (forall k :: 0 <= k < |r| ==> |r[k]| >= 3 && r[k][..3] == line[..3] && '|' !in r[k][3..])
            && Join(Tails(r)) == line[3..]
  {
    var r := SplitLine(line);
    var fs := Fields(line, 3);
    FieldsFacts(line, 3);
    forall k | 0 <= k < |r| ensures |r[k]| >= 3 && r[k][..3] == line[..3] && r[k][3..] == fs[k] {
      assert r[k] == line[..3] + fs[k];
    }
    assert Tails(r) == fs;
  }

  /** Where the line has at most one '|', and none before the arrow's end,
      GetGrammar does split it into one rule per alternative. */
  lemma SplitAgrees(line: seq<char>, j: nat)
    requires 3 <= |line| && j <= |line|
    requires forall k :: 0 <= k < |line| && k != j ==> line[k] != '|'
    requires j < |line| ==> 3 <= j && line[j] == '|'
    ensures SplitAsWritten(line) == SplitLine(line)
  {
    if j < |line| {
      OneBar(line, j);
      FieldsCons(line, 3, j);
      FieldsNoBar(line, j + 1);
    } else {
      FieldsNoBar(line, 3);
      assert line[..3] + line[3..] == line;
      assert '|' !in line;
    }
  }

  /** The finding: a line with two '|' makes GetGrammar emit four rules for
      three alternatives, two of which still contain '|'. */
  lemma ThreeAlternatives()
    ensures SplitAsWritten("E->a|b|c") == ["E->a", "E->b|c", "E->a|b", "E->c"]
    ensures SplitLine("E->a|b|c") == ["E->a", "E->b", "E->c"]
  {
    ThreeAsWritten();
    ThreeIntended();
  }

  lemma ThreeAsWritten()
    ensures SplitAsWritten("E->a|b|c") == ["E->a", "E->b|c", "E->a|b", "E->c"]
  {
    var line := "E->a|b|c";
    assert line[4] == '|' && line[6] == '|';
    PairsOverNoBar(line, 0, 4);
    PairsOverNoBar(line, 5, 6);
    PairsOverNoBar(line, 7, 8);
    assert line[..3] == "E->" && line[3..4] == "a" && line[5..] == "b|c" && line[3..6] == "a|b" && line[7..] == "c";
    assert Before(line, 4) == "a" && Before(line, 6) == "a|b";
    assert line[..3] + "a" == "E->a" && line[..3] + "b|c" == "E->b|c";
    assert line[..3] + "a|b" == "E->a|b" && line[..3] + "c" == "E->c";
    assert PairAt(line, 4) == ["E->a", "E->b|c"];
    assert PairAt(line, 6) == ["E->a|b", "E->c"];
    assert BarPairs(line, 5) == BarPairs(line, 4) + PairAt(line, 4);
    assert BarPairs(line, 7) == BarPairs(line, 6) + PairAt(line, 6);
    assert BarPairs(line, 8) == ["E->a", "E->b|c"] + ["E->a|b", "E->c"];
  }

  lemma ThreeIntended()
    ensures SplitLine("E->a|b|c") == ["E->a", "E->b", "E->c"]
  {
    var line := "E->a|b|c";
    ThreeFields();
    assert line[..3] == "E->";
    assert "E->" + "a" == "E->a" && "E->" + "b" == "E->b" && "E->" + "c" == "E->c";
    assert SplitLine(line) == Prefixed("E->", ["a", "b", "c"]);
  }

  lemma ThreeFields()
    ensures Fields("E->a|b|c", 3) == ["a", "b", "c"]
  {
    var s := "E->a|b|c";
    FieldsCons(s, 3, 4);
    FieldsCons(s, 5, 6);
    FieldsNoBar(s, 7);
    assert s[3..4] == "a" && s[5..6] == "b" && s[7..] == "c";
    assert Fields(s, 3) == ["a"] + (["b"] + ["c"]);
  }

  // ---------------------------------------------------------------------
  // GetGrammar as intended
  // ---------------------------------------------------------------------

  /** Every line split into one rule per alternative. */
  function SplitAll(lines: seq<seq<char>>): seq<seq<char>>
    decreases |lines|
  {
    if |lines| == 0 then []
    else SplitAll(lines[..|lines| - 1]) + SplitLine(lines[|lines| - 1])
  }

  /** The corrected GetGrammar: each line contributes one rule per
      alternative, and a line without '|' is kept whole. */
  method SplitGrammar(lines: seq<seq<char>>) returns (grammar: seq<seq<char>>)
    ensures grammar == SplitAll(lines)
  {
    grammar := [];
    var i := 0;
    while i < |lines|
      invariant 0 <= i <= |lines|
      invariant grammar == SplitAll(lines[..i])
    {
      grammar := SplitAlternatives(grammar, lines[i]);
      assert lines[..i + 1][..i] == lines[..i];
      i := i + 1;
    }
    assert lines[..i] == lines;
  }

  /** The corrected inner loop: a rule is emitted at every '|' for the text
      since the previous one, and the last alternative after the scan. */
  method SplitAlternatives(grammar: seq<seq<char>>, line: seq<char>) returns (grammar': seq<seq<char>>)
    ensures grammar' == grammar + SplitLine(line)
  {
    if |line| < 3 {
      grammar' := grammar + [line];
    } else {
      grammar' := SplitAfterArrow(grammar, line);
    }
  }

  /** The scan of a line of at least three characters. */
  method SplitAfterArrow(grammar: seq<seq<char>>, line: seq<char>) returns (grammar': seq<seq<char>>)
    requires 3 <= |line|
    ensures grammar' == grammar + Prefixed(line[..3], Fields(line, 3))
  {
    var prefix := line[..3];
    grammar' := grammar;
    var start := 3;
    var j := 3;
    while j < |line|
      invariant 3 <= start <= j <= |line| && j <= NextBar(line, start)
      invariant grammar' + Prefixed(prefix, Fields(line, start)) == grammar + Prefixed(prefix, Fields(line, 3))
    {
      if line[j] == '|' {
        var field := line[start..j];
        FieldStep(line, start, j, prefix);
        AppendOne(grammar', prefix + field, Prefixed(prefix, Fields(line, j + 1)));
        grammar' := grammar' + [prefix + field];
        start := j + 1;
      }
      j := j + 1;
    }
    LastField(line, start, prefix);
    grammar' := grammar' + [prefix + line[start..]];
  }

  /** The '|' at j closes the field that started at start. */
  lemma FieldStep(line: seq<char>, start: nat, j: nat, p: seq<char>)
    requires start <= j < |line| && j <= NextBar(line, start) && line[j] == '|'
    ensures Prefixed(p, Fields(line, start)) == [p + line[start..j]] + Prefixed(p, Fields(line, j + 1))
  {
    assert Fields(line, start) == [line[start..j]] + Fields(line, j + 1);
  }

  /** With no '|' left, the field that started at start is the last one. */
  lemma LastField(line: seq<char>, start: nat, p: seq<char>)
    requires start <= |line| && NextBar(line, start) == |line|
    ensures Prefixed(p, Fields(line, start)) == [p + line[start..]]
  {
    assert Fields(line, start) == [line[start..]];
  }

  /** Of lines that each hold "A->", the corrected split gives rules that
      all hold "A->" and have no '|' on their right side (SplitLineSound
      gives the count per line). */
  lemma {:induction false} SplitAllSound(lines: seq<seq<char>>)
    requires forall i :: 0 <= i < |lines| ==> 3 <= |lines[i]|
    ensures forall k :: 0 <= k < |SplitAll(lines)| ==> 3 <= |SplitAll(lines)[k]| && '|' !in SplitAll(lines)[k][3..]
    decreases |lines|
  {
    if |lines| > 0 {
      var init, last := lines[..|lines| - 1], lines[|lines| - 1];
      SplitAllSound(init);
      SplitLineSound(last);
      var a, b := SplitAll(init), SplitLine(last);
      forall k | 0 <= k < |a + b| ensures 3 <= |(a + b)[k]| && '|' !in (a + b)[k][3..] {
        if k >= |a| {
          assert (a + b)[k] == b[k - |a|];
        }
      }
    }
  }

  // ---------------------------------------------------------------------
  // GetTerminals and GetNonTerminals
  // ---------------------------------------------------------------------

  /** The two inventories: terminals are read from position 3 on and are the
      characters that are not upper case, ' ' or '-'; non-terminals are read
      from position 0 on and are the upper-case letters. */
  datatype Inventory = Terminals | NonTerminals

  predicate Keeps(kind: Inventory, c: char) {
    match kind
    case Terminals => !IsNonTerminal(c) && c != ' ' && c != '-'
    case NonTerminals => IsNonTerminal(c)
  }

  function From(kind: Inventory): nat {
    if kind == Terminals then 3 else 0
  }

  /** The kept characters of rule[j..], in order. */
  function Picks(kind: Inventory, rule: seq<char>, j: nat): seq<char>
    decreases |rule| - j
  {
    if j >= |rule| then []
    else (if Keeps(kind, rule[j]) then [rule[j]] else []) + Picks(kind, rule, j + 1)
  }

  /** The kept characters of all rules, in the order the loops visit them. */
  function Stream(kind: Inventory, grammar: seq<seq<char>>): seq<char>
    decreases |grammar|
  {
    if |grammar| == 0 then []
    else Stream(kind, grammar[..|grammar| - 1]) + Picks(kind, grammar[|grammar| - 1], From(kind))
  }

  /** c is a character at a position the inventory reads. */
  ghost predicate Occurs(kind: Inventory, grammar: seq<seq<char>>, c: char) {
    exists i, j :: 0 <= i < |grammar| && From(kind) <= j < |grammar[i]| && grammar[i][j] == c
  }

  lemma {:induction false} PicksMembers(kind: Inventory, rule: seq<char>, j: nat, c: char)
    ensures c in Picks(kind, rule, j) <==> Keeps(kind, c) && exists k :: j <= k < |rule| && rule[k] == c
    decreases |rule| - j
  {
    if j < |rule| {
      PicksMembers(kind, rule, j + 1, c);
    }
  }

  lemma {:induction false} StreamMembers(kind: Inventory, grammar: seq<seq<char>>, c: char)
    ensures c in Stream(kind, grammar) <==> Keeps(kind, c) && Occurs(kind, grammar, c)
    decreases |grammar|
  {
    if |grammar| > 0 {
      var init, last := grammar[..|grammar| - 1], grammar[|grammar| - 1];
      StreamMembers(kind, init, c);
      PicksMembers(kind, last, From(kind), c);
      if Occurs(kind, grammar, c) {
        var i, j :| 0 <= i < |grammar| && From(kind) <= j < |grammar[i]| && grammar[i][j] == c;
        if i < |grammar| - 1 {
          assert init[i] == grammar[i];
        }
      }
      if Occurs(kind, init, c) {
        var i, j :| 0 <= i < |init| && From(kind) <= j < |init[i]| && init[i][j] == c;
        assert grammar[i] == init[i];
      }
    }
  }

  /** What both inventories promise: duplicate-free, in order of first
      occurrence, and holding exactly the kept characters that occur. */
  ghost predicate IsInventory(kind: Inventory, grammar: seq<seq<char>>, r: seq<char>) {
    && NoDup(r)
    && FirstSeenOrder(r, Stream(kind, grammar))
    && forall c :: c in r <==> Keeps(kind, c) && Occurs(kind, grammar, c)
  }

  lemma InventoryFacts(kind: Inventory, grammar: seq<seq<char>>)
    ensures IsInventory(kind, grammar, InsertAll([], Stream(kind, grammar)))
  {
    DedupFacts(Stream(kind, grammar));
    forall c ensures c in Stream(kind, grammar) <==> Keeps(kind, c) && Occurs(kind, grammar, c) {
      StreamMembers(kind, grammar, c);
    }
  }

  /** One step of the scans: insert the next character read if it is kept. */
  lemma ScanStep(kind: Inventory, acc: seq<char>, rule: seq<char>, j: nat)
    requires j < |rule|
    ensures InsertAll(acc, Picks(kind, rule, j)) ==
            InsertAll(if Keeps(kind, rule[j]) then Insert(acc, rule[j]) else acc, Picks(kind, rule, j + 1))
  {
    if Keeps(kind, rule[j]) {
      InsertAllConcat(acc, [rule[j]], Picks(kind, rule, j + 1));
      assert InsertAll(acc, [rule[j]]) == Insert(acc, rule[j]) by {
        assert [rule[j]][..0] == [];
      }
    } else {
      assert Picks(kind, rule, j) == Picks(kind, rule, j + 1);
    }
  }

  lemma StreamStep(kind: Inventory, grammar: seq<seq<char>>, i: nat)
    requires i < |grammar|
    ensures InsertAll([], Stream(kind, grammar[..i + 1])) ==
            InsertAll(InsertAll([], Stream(kind, grammar[..i])), Picks(kind, grammar[i], From(kind)))
  {
    assert grammar[..i + 1][..i] == grammar[..i];
    InsertAllConcat([], Stream(kind, grammar[..i]), Picks(kind, grammar[i], From(kind)));
  }

  /** The inner loop of both scans: push each kept, not yet seen character
      of rule[From(kind)..] onto acc. */
  method ScanRule(kind: Inventory, rule: seq<char>, acc: seq<char>, seen: set<char>)
    returns (acc': seq<char>, seen': set<char>)
    requires seen == Elems(acc)
    ensures acc' == InsertAll(acc, Picks(kind, rule, From(kind)))
    ensures seen' == Elems(acc')
  {
    acc', seen' := acc, seen;
    var j := From(kind);
    while j < |rule|
      invariant From(kind) <= j
      invariant InsertAll(acc', Picks(kind, rule, j)) == InsertAll(acc, Picks(kind, rule, From(kind)))
      invariant seen' == Elems(acc')
    {
      ScanStep(kind, acc', rule, j);
      var ch := rule[j];
      if Keeps(kind, ch) {
        if ch !in seen' {
          seen' := seen' + {ch};
          acc' := acc' + [ch];
        }
      }
      j := j + 1;
    }
  }

  /** GetTerminals: the terminals of the right sides in order of first
      occurrence, each once (`seen` is the set of those pushed so far). */
  method GetTerminals(grammar: seq<seq<char>>) returns (terminals: seq<char>)
    ensures terminals == InsertAll([], Stream(Terminals, grammar))
    ensures IsInventory(Terminals, grammar, terminals)
  {
    var seen: set<char> := {};
    terminals := [];
    var i := 0;
    while i < |grammar|
      invariant 0 <= i <= |grammar|
      invariant terminals == InsertAll([], Stream(Terminals, grammar[..i]))
      invariant seen == Elems(terminals)
    {
      StreamStep(Terminals, grammar, i);
      terminals, seen := ScanRule(Terminals, grammar[i], terminals, seen);
      i := i + 1;
    }
    assert grammar[..i] == grammar;
    InventoryFacts(Terminals, grammar);
  }

  /** GetNonTerminals: the upper-case letters of all rules in order of first
      occurrence, each once. */
  method GetNonTerminals(grammar: seq<seq<char>>) returns (nonTerminals: seq<char>)
    ensures nonTerminals == InsertAll([], Stream(NonTerminals, grammar))
    ensures IsInventory(NonTerminals, grammar, nonTerminals)
  {
    var seen: set<char> := {};
    nonTerminals := [];
    var i := 0;
    while i < |grammar|
      invariant 0 <= i <= |grammar|
      invariant nonTerminals == InsertAll([], Stream(NonTerminals, grammar[..i]))
      invariant seen == Elems(nonTerminals)
    {
      StreamStep(NonTerminals, grammar, i);
      nonTerminals, seen := ScanRule(NonTerminals, grammar[i], nonTerminals, seen);
      i := i + 1;
    }
    assert grammar[..i] == grammar;
    InventoryFacts(NonTerminals, grammar);
  }
}

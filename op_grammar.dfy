/** OperatorPriority.cpp, grammar side: the symbol classifier, the small
    string helpers and the splitting of a rule line `A->x|y|...` into
    productions appended to the grammar. */
module OPGrammar {
  import opened Seqs

  /** isNonTerminal: exactly the upper-case letters are non-terminals. */
  predicate IsNonTerminal(c: char) {
    'A' <= c <= 'Z'
  }

  /** containsTerminal: whether the last count characters of str hold a
      terminal. The source reads before the start of str when count exceeds
      its length; that is excluded here. */
  method ContainsTerminal(count: nat, str: seq<char>) returns (found: bool)
    requires count <= |str|
    ensures found <==> exists k :: |str| - count <= k < |str| && !IsNonTerminal(str[k])
  {
    found := false;
    var j := 0;
    while j < count
      invariant 0 <= j <= count
      invariant found <==> exists k :: |str| - j <= k < |str| && !IsNonTerminal(str[k])
    {
      if !IsNonTerminal(str[|str| - j - 1]) {
        found := true;
      }
      j := j + 1;
    }
  }

  /** removeFirstChar: drops the first character of a non-empty string. */
  function RemoveFirstChar(s: seq<char>): (r: seq<char>)
    ensures |s| > 0 ==> s == [s[0]] + r
    ensures |s| == 0 ==> r == []
  {
    if |s| > 0 then s[1..] else s
  }

  /** One row of `productions`: left side and right side. */
  datatype Production = Production(lhs: char, rhs: seq<char>)

  /** Index of the first '|' at or after i, or |s| when there is none. */
  function NextBar(s: seq<char>, i: nat): (k: nat)
    requires i <= |s|
    ensures i <= k <= |s|
    ensures k < |s| ==> s[k] == '|'
    ensures forall m :: i <= m < k ==> s[m] != '|'
    decreases |s| - i
  {
    if i == |s| || s[i] == '|' then i else NextBar(s, i + 1)
  }

  /** The right sides read from rule starting at position i: each runs up to
      the next '|' or the end, and the '|' is skipped. */
  function PiecesFrom(rule: seq<char>, i: nat): seq<seq<char>>
    decreases |rule| - i
  {
    if i >= |rule| then []
    else
      var k := NextBar(rule, i);
      [rule[i..k]] + PiecesFrom(rule, k + 1)
  }

  function ToProductions(lhs: char, pieces: seq<seq<char>>): seq<Production> {
    if |pieces| == 0 then [] else [Production(lhs, pieces[0])] + ToProductions(lhs, pieces[1..])
  }

  /** The productions splitProduction appends for one rule line. */
  function SplitRule(rule: seq<char>): seq<Production> {
    if |rule| <= 3 then [] else ToProductions(rule[0], PiecesFrom(rule, 3))
  }

  /** Alternatives joined back with '|'. */
  function Join(pieces: seq<seq<char>>): seq<char> {
    if |pieces| == 0 then []
    else if |pieces| == 1 then pieces[0]
    else pieces[0] + "|" + Join(pieces[1..])
  }

  /** No right side read from a rule contains '|'. */
  lemma {:induction false} PiecesHaveNoBar(rule: seq<char>, i: nat)
    ensures forall k :: 0 <= k < |PiecesFrom(rule, i)| ==> '|' !in PiecesFrom(rule, i)[k]
    decreases |rule| - i
  {
    if i < |rule| {
      var k := NextBar(rule, i);
      PiecesHaveNoBar(rule, k + 1);
      assert forall m :: 0 <= m < |rule[i..k]| ==> rule[i..k][m] == rule[i + m];
    }
  }

  /** Where the text of the alternatives from i ends: before one trailing '|'. */
  function TextEnd(rule: seq<char>, i: nat): (e: nat)
    requires i <= |rule|
    ensures i <= e <= |rule|
  {
    if i < |rule| && rule[|rule| - 1] == '|' then |rule| - 1 else |rule|
  }

  /** Joining the right sides with '|' gives back the text they were read
      from, except that one trailing '|' leaves no empty alternative. */
  lemma {:induction false} JoinPieces(rule: seq<char>, i: nat)
    requires i <= |rule|
    ensures Join(PiecesFrom(rule, i)) == rule[i..TextEnd(rule, i)]
    decreases |rule| - i
  {
    if i < |rule| {
      var k := NextBar(rule, i);
      var x, rest := rule[i..k], PiecesFrom(rule, k + 1);
      assert PiecesFrom(rule, i) == [x] + rest;
      if k + 1 < |rule| {
        JoinPieces(rule, k + 1);
        assert TextEnd(rule, k + 1) == TextEnd(rule, i);
        JoinCons(x, rest);
        SliceAtBar(rule, i, k, TextEnd(rule, i));
      } else {
        assert rest == [];
        assert Join([x]) == x;
      }
    }
  }

  lemma JoinCons(p: seq<char>, ps: seq<seq<char>>)
    requires ps != []
    ensures Join([p] + ps) == p + "|" + Join(ps)
  {
    assert ([p] + ps)[1..] == ps;
  }

  lemma SliceAtBar(s: seq<char>, i: nat, k: nat, e: nat)
    requires i <= k < e <= |s| && s[k] == '|'
    ensures s[i..k] + "|" + s[k + 1..e] == s[i..e]
  {
    assert s[i..e] == s[i..k] + s[k..e];
    assert s[k..e] == [s[k]] + s[k + 1..e];
  }

  /** splitProduction appends productions whose left side is the rule's first
      character and whose right sides contain no '|'; joined with '|' they
      give back the text after the arrow (less one trailing '|'). */
  lemma SplitRuleFacts(rule: seq<char>)
    requires |rule| > 3
    ensures forall k :: 0 <= k < |SplitRule(rule)| ==>
              SplitRule(rule)[k].lhs == rule[0] && '|' !in SplitRule(rule)[k].rhs
    ensures Join(PiecesFrom(rule, 3)) == if rule[|rule| - 1] == '|' then rule[3..|rule| - 1] else rule[3..]
  {
    PiecesHaveNoBar(rule, 3);
    JoinPieces(rule, 3);
    ToProductionsAt(rule[0], PiecesFrom(rule, 3));
  }

  lemma {:induction false} ToProductionsAt(lhs: char, pieces: seq<seq<char>>)
    ensures |ToProductions(lhs, pieces)| == |pieces|
    ensures forall k :: 0 <= k < |pieces| ==> ToProductions(lhs, pieces)[k] == Production(lhs, pieces[k])
  {
    if |pieces| > 0 {
      ToProductionsAt(lhs, pieces[1..]);
    }
  }

  lemma ToProductionsCons(lhs: char, p: seq<char>, ps: seq<seq<char>>)
    ensures ToProductions(lhs, [p] + ps) == [Production(lhs, p)] + ToProductions(lhs, ps)
  {
    assert ([p] + ps)[1..] == ps;
  }

  /** Grammar: the productions split so far (productionCount is their number). */
  class Grammar {
    var productions: seq<Production>

    constructor ()
      ensures productions == []
    {
      productions := [];
    }

    /** splitProduction: appends one production per alternative of rule. */
    method SplitProduction(rule: seq<char>)
      modifies this
      ensures productions == old(productions) + SplitRule(rule)
    {
      if |rule| <= 3 {
        return;
      }
      var lhs := rule[0];
      var i := 3;
      while i < |rule|
        invariant 3 <= i <= |rule| + 1
        invariant productions + ToProductions(lhs, PiecesFrom(rule, i)) == old(productions) + SplitRule(rule)
      {
        var start := i;
        var rightSide;
        rightSide, i := ReadRightSide(rule, start);
        ghost var rest := ToProductions(lhs, PiecesFrom(rule, i + 1));
        assert PiecesFrom(rule, start) == [rightSide] + PiecesFrom(rule, i + 1);
        ToProductionsCons(lhs, rightSide, PiecesFrom(rule, i + 1));
        AppendOne(productions, Production(lhs, rightSide), rest);
        productions := productions + [Production(lhs, rightSide)];
        i := i + 1;
      }
    }
  }

  /** The inner loop of splitProduction: the characters from start up to the
      next '|' or the end of the rule. */
  method ReadRightSide(rule: seq<char>, start: nat) returns (rightSide: seq<char>, i: nat)
    requires start < |rule|
    ensures i == NextBar(rule, start) && rightSide == rule[start..i]
  {
    i := start;
    rightSide := [];
    while i < |rule| && rule[i] != '|'
      invariant start <= i <= |rule|
      invariant rightSide == rule[start..i]
      invariant forall m :: start <= m < i ==> rule[m] != '|'
    {
      rightSide := rightSide + [rule[i]];
      i := i + 1;
    }
    NextBarIsFirst(rule, start, i);
  }

  lemma AppendOne<T>(a: seq<T>, x: T, b: seq<T>)
    ensures a + ([x] + b) == (a + [x]) + b
  {
  }

  lemma {:induction false} NextBarIsFirst(s: seq<char>, i: nat, k: nat)
    requires i <= k <= |s|
    requires k < |s| ==> s[k] == '|'
    requires forall m :: i <= m < k ==> s[m] != '|'
    ensures NextBar(s, i) == k
    decreases k - i
  {
    if i < k {
      NextBarIsFirst(s, i + 1, k);
    }
  }
}

/** main.cpp, CalculateFirstVT and CalculateLastVT. The two functions are
    mirror images (FIRSTVT reads a right side from position 3, LASTVT from
    the last character) and are modelled once, with a `Side`. Each makes one
    pass adding the terminals a rule shows directly (Case 1) and then repeats
    passes that copy the set of a non-terminal into the set of a left side
    which starts (ends) with it (Case 2) until a pass adds nothing.

    The result is characterised as the least assignment closed under both
    cases: `Closed` says every fact the two cases ask for is present, `Least`
    that the result lies below every closed assignment. */
module RuleVT {
  import opened Seqs
  import opened RuleGrammar
  import OPSets

  /** A std::map<char, std::vector<char>>; a key that is absent reads as the
      empty list, which is what operator[] would insert for it. */
  type VTMap = map<char, seq<char>>

  function Get(m: VTMap, k: char): seq<char> {
    if k in m then m[k] else []
  }

  /** rule[i] of a std::string: the terminating '\0' at position size(). */
  function At(rule: seq<char>, i: nat): char {
    if i < |rule| then rule[i] else '\0'
  }

  /** What the two functions read without a check: FIRSTVT reads rule[3]
      (defined up to size 3), LASTVT reads rule[size - 1]. */
  predicate RuleOk(rule: seq<char>, side: OPSets.Side) {
    if side == OPSets.First then 3 <= |rule| else 1 <= |rule|
  }

  predicate RulesOk(grammar: seq<seq<char>>, side: OPSets.Side) {
    forall i :: 0 <= i < |grammar| ==> RuleOk(grammar[i], side)
  }

  /** The symbol a rule is read from: rule[3] or the last character. */
  function Lead(rule: seq<char>, side: OPSets.Side): char
    requires RuleOk(rule, side)
  {
    if side == OPSets.First then At(rule, 3) else rule[|rule| - 1]
  }

  /** The symbol next to the lead: rule[4] or rule[size - 2]. */
  function Second(rule: seq<char>, side: OPSets.Side): char
    requires 4 < |rule|
  {
    if side == OPSets.First then rule[4] else rule[|rule| - 2]
  }

  /** Case 1: the terminal a rule contributes directly to its left side. */
  function Basic(rule: seq<char>, side: OPSets.Side, terms: seq<char>, nts: seq<char>): Option<char>
    requires RuleOk(rule, side)
  {
    var x := Lead(rule, side);
    if x in terms then Some(x)
    else if x in nts && 4 < |rule| && Second(rule, side) in terms then Some(Second(rule, side))
    else None
  }

  /** Case 2: the rule makes its left side inherit the set of its lead. */
  predicate Inherits(rule: seq<char>, side: OPSets.Side, nts: seq<char>)
    requires RuleOk(rule, side)
  {
    Lead(rule, side) in nts && rule[0] != Lead(rule, side)
  }

  /** Everything in the set of b is in the set of a. */
  ghost predicate Includes(m: VTMap, a: char, b: char) {
    forall t :: t in Get(m, b) ==> t in Get(m, a)
  }

  ghost predicate BasicIn(rule: seq<char>, side: OPSets.Side, terms: seq<char>, nts: seq<char>, m: VTMap)
    requires RuleOk(rule, side)
  {
    Basic(rule, side, terms, nts).Some? ==> Basic(rule, side, terms, nts).value in Get(m, rule[0])
  }

  ghost predicate InheritIn(rule: seq<char>, side: OPSets.Side, nts: seq<char>, m: VTMap)
    requires RuleOk(rule, side)
  {
    Inherits(rule, side, nts) ==> Includes(m, rule[0], Lead(rule, side))
  }

  ghost predicate BasicHeld(grammar: seq<seq<char>>, side: OPSets.Side, terms: seq<char>, nts: seq<char>, m: VTMap)
    requires RulesOk(grammar, side)
  {
    forall i :: 0 <= i < |grammar| ==> BasicIn(grammar[i], side, terms, nts, m)
  }

  ghost predicate InheritHeld(grammar: seq<seq<char>>, side: OPSets.Side, nts: seq<char>, m: VTMap)
    requires RulesOk(grammar, side)
  {
    forall i :: 0 <= i < |grammar| ==> InheritIn(grammar[i], side, nts, m)
  }

  /** m holds every fact Case 1 and Case 2 ask for. */
  ghost predicate Closed(grammar: seq<seq<char>>, side: OPSets.Side, terms: seq<char>, nts: seq<char>, m: VTMap)
    requires RulesOk(grammar, side)
  {
    BasicHeld(grammar, side, terms, nts, m) && InheritHeld(grammar, side, nts, m)
  }

  ghost predicate Below(m: VTMap, s: VTMap) {
    forall k, t :: t in Get(m, k) ==> t in Get(s, k)
  }

  /** m lies below every closed assignment: it holds nothing the two cases
      do not force. */
  ghost predicate Least(grammar: seq<seq<char>>, side: OPSets.Side, terms: seq<char>, nts: seq<char>, m: VTMap)
    requires RulesOk(grammar, side)
  {
    forall s :: Closed(grammar, side, terms, nts, s) ==> Below(m, s)
  }

  /** Every list is duplicate-free and holds terminals only. */
  ghost predicate WellFormed(m: VTMap, terms: seq<char>) {
    forall k :: NoDup(Get(m, k)) && forall t :: t in Get(m, k) ==> t in terms
  }

  ghost predicate Grows(m: VTMap, m': VTMap) {
    forall k, t :: t in Get(m, k) ==> t in Get(m', k)
  }

  /** Every list of m is a prefix of the list of m': entries are only ever
      appended. */
  ghost predicate Extends(m: VTMap, m': VTMap) {
    forall k :: Get(m, k) <= Get(m', k)
  }

  /** Every entry of m is a Case 1 fact. */
  ghost predicate OnlyBasic(grammar: seq<seq<char>>, side: OPSets.Side, terms: seq<char>, nts: seq<char>, m: VTMap)
    requires RulesOk(grammar, side)
  {
    forall k, t :: t in Get(m, k) ==> FromBasic(grammar, side, terms, nts, k, t)
  }

  /** Some rule for k contributes t by Case 1. */
  ghost predicate FromBasic(grammar: seq<seq<char>>, side: OPSets.Side, terms: seq<char>, nts: seq<char>, k: char, t: char)
    requires RulesOk(grammar, side)
  {
    exists i :: 0 <= i < |grammar| && grammar[i][0] == k && Basic(grammar[i], side, terms, nts) == Some(t)
  }

  /** The (left side, terminal) pairs not yet present: what bounds the
      number of passes. */
  ghost function Missing(grammar: seq<seq<char>>, side: OPSets.Side, terms: seq<char>, m: VTMap): set<(char, char)>
    requires RulesOk(grammar, side)
  {
    set i, t | 0 <= i < |grammar| && t in terms && t !in Get(m, grammar[i][0]) :: (grammar[i][0], t)
  }

  // ---------------------------------------------------------------------
  // Lemmas
  // ---------------------------------------------------------------------

  lemma BasicIsLeast(grammar: seq<seq<char>>, side: OPSets.Side, terms: seq<char>, nts: seq<char>, m: VTMap)
    requires RulesOk(grammar, side)
    requires OnlyBasic(grammar, side, terms, nts, m)
    ensures Least(grammar, side, terms, nts, m)
  {
    forall s | Closed(grammar, side, terms, nts, s) ensures Below(m, s) {
      forall k, t | t in Get(m, k) ensures t in Get(s, k) {
        var i :| 0 <= i < |grammar| && grammar[i][0] == k && Basic(grammar[i], side, terms, nts) == Some(t);
        assert BasicIn(grammar[i], side, terms, nts, s);
      }
    }
  }

  /** Copying the set of the lead into the set of the left side of an
      inheriting rule adds only what every closed assignment holds. */
  lemma InheritKeepsLeast(grammar: seq<seq<char>>, side: OPSets.Side, terms: seq<char>, nts: seq<char>,
                          m: VTMap, i: nat)
    requires RulesOk(grammar, side) && i < |grammar|
    requires Inherits(grammar[i], side, nts)
    requires Least(grammar, side, terms, nts, m)
    ensures Least(grammar, side, terms, nts,
                  m[grammar[i][0] := InsertAll(Get(m, grammar[i][0]), Get(m, Lead(grammar[i], side)))])
  {
    var a, b := grammar[i][0], Lead(grammar[i], side);
    var m' := m[a := InsertAll(Get(m, a), Get(m, b))];
    InsertAllMembers(Get(m, a), Get(m, b));
    forall s | Closed(grammar, side, terms, nts, s) ensures Below(m', s) {
      assert InheritIn(grammar[i], side, nts, s);
      forall k, t | t in Get(m', k) ensures t in Get(s, k) {
        if k == a && t !in Get(m, a) {
          assert t in Get(s, b);
        }
      }
    }
  }

  lemma InheritGrows(m: VTMap, a: char, b: char)
    ensures Grows(m, m[a := InsertAll(Get(m, a), Get(m, b))])
    ensures Extends(m, m[a := InsertAll(Get(m, a), Get(m, b))])
    ensures forall t :: t in Get(m, b) ==> t in Get(m[a := InsertAll(Get(m, a), Get(m, b))], a)
  {
    InsertAllMembers(Get(m, a), Get(m, b));
    InsertAllPrefix(Get(m, a), Get(m, b));
  }

  lemma InheritKeepsWellFormed(m: VTMap, a: char, b: char, terms: seq<char>)
    requires WellFormed(m, terms)
    ensures WellFormed(m[a := InsertAll(Get(m, a), Get(m, b))], terms)
  {
    var m' := m[a := InsertAll(Get(m, a), Get(m, b))];
    assert NoDup(Get(m, a)) && forall t :: t in Get(m, b) ==> t in terms;
    InsertAllNoDup(Get(m, a), Get(m, b));
    InsertAllMembers(Get(m, a), Get(m, b));
    forall k ensures NoDup(Get(m', k)) && forall t :: t in Get(m', k) ==> t in terms {
      if k != a {
        assert Get(m', k) == Get(m, k);
      }
    }
  }

  lemma KeepsBasic(grammar: seq<seq<char>>, side: OPSets.Side, terms: seq<char>, nts: seq<char>, m: VTMap, m': VTMap)
    requires RulesOk(grammar, side)
    requires BasicHeld(grammar, side, terms, nts, m) && Grows(m, m')
    ensures BasicHeld(grammar, side, terms, nts, m')
  {
    forall i | 0 <= i < |grammar| ensures BasicIn(grammar[i], side, terms, nts, m') {
      assert BasicIn(grammar[i], side, terms, nts, m);
    }
  }

  /** Adding a missing terminal to the set of a left side shrinks Missing. */
  lemma MissingShrinks(grammar: seq<seq<char>>, side: OPSets.Side, terms: seq<char>,
                       m: VTMap, m': VTMap, i: nat, t: char)
    requires RulesOk(grammar, side) && i < |grammar|
    requires Grows(m, m')
    requires t in terms && t !in Get(m, grammar[i][0]) && t in Get(m', grammar[i][0])
    ensures Missing(grammar, side, terms, m') < Missing(grammar, side, terms, m)
  {
    assert (grammar[i][0], t) in Missing(grammar, side, terms, m);
    assert (grammar[i][0], t) !in Missing(grammar, side, terms, m');
  }

  /** Two least closed assignments hold the same sets. */
  lemma LeastUnique(grammar: seq<seq<char>>, side: OPSets.Side, terms: seq<char>, nts: seq<char>,
                    m1: VTMap, m2: VTMap, k: char)
    requires RulesOk(grammar, side)
    requires Closed(grammar, side, terms, nts, m1) && Least(grammar, side, terms, nts, m1)
    requires Closed(grammar, side, terms, nts, m2) && Least(grammar, side, terms, nts, m2)
    ensures Elems(Get(m1, k)) == Elems(Get(m2, k))
  {
    assert Below(m1, m2) && Below(m2, m1);
  }

  // ---------------------------------------------------------------------
  // The two loops
  // ---------------------------------------------------------------------

  /** Case 1 for one rule: push the terminal it shows directly, unless the
      set of its left side already holds it. */
  method AddBasic(vt: VTMap, rule: seq<char>, terminals: seq<char>, nonTerminals: seq<char>, side: OPSets.Side)
    returns (vt': VTMap)
    requires RuleOk(rule, side)
    ensures vt' == if Basic(rule, side, terminals, nonTerminals).Some?
                   then vt[rule[0] := Insert(Get(vt, rule[0]), Basic(rule, side, terminals, nonTerminals).value)]
                   else vt
  {
    vt' := vt;
    var left := rule[0];
    var lead := if side == OPSets.First then At(rule, 3) else rule[|rule| - 1];
    var leadIsTerminal := IsListed(lead, terminals);
    if leadIsTerminal {
      if lead !in Get(vt, left) {
        vt' := vt[left := Get(vt, left) + [lead]];
      } else {
        vt' := vt[left := Get(vt, left)];
      }
    } else {
      var leadIsNonTerminal := IsListed(lead, nonTerminals);
      if leadIsNonTerminal && |rule| > 4 {
        var next := if side == OPSets.First then rule[4] else rule[|rule| - 2];
        var nextIsTerminal := IsListed(next, terminals);
        if nextIsTerminal {
          if next !in Get(vt, left) {
            vt' := vt[left := Get(vt, left) + [next]];
          } else {
            vt' := vt[left := Get(vt, left)];
          }
        }
      }
    }
  }

  /** The Case 1 loop over all rules. */
  method BasicPass(grammar: seq<seq<char>>, terminals: seq<char>, nonTerminals: seq<char>, side: OPSets.Side)
    returns (vt: VTMap)
    requires RulesOk(grammar, side)
    ensures WellFormed(vt, terminals)
    ensures BasicHeld(grammar, side, terminals, nonTerminals, vt)
    ensures OnlyBasic(grammar, side, terminals, nonTerminals, vt)
  {
    vt := map[];
    var i := 0;
    while i < |grammar|
      invariant 0 <= i <= |grammar|
      invariant WellFormed(vt, terminals)
      invariant BasicHeld(grammar[..i], side, terminals, nonTerminals, vt)
      invariant OnlyBasic(grammar[..i], side, terminals, nonTerminals, vt)
    {
      ghost var before := vt;
      vt := AddBasic(vt, grammar[i], terminals, nonTerminals, side);
      BasicStep(grammar, side, terminals, nonTerminals, before, vt, i);
      i := i + 1;
    }
    assert grammar[..i] == grammar;
  }

  lemma BasicStep(grammar: seq<seq<char>>, side: OPSets.Side, terms: seq<char>, nts: seq<char>,
                  m: VTMap, m': VTMap, i: nat)
    requires RulesOk(grammar, side) && i < |grammar|
    requires WellFormed(m, terms)
    requires BasicHeld(grammar[..i], side, terms, nts, m)
    requires OnlyBasic(grammar[..i], side, terms, nts, m)
    requires m' == if Basic(grammar[i], side, terms, nts).Some?
                   then m[grammar[i][0] := Insert(Get(m, grammar[i][0]), Basic(grammar[i], side, terms, nts).value)]
                   else m
    ensures WellFormed(m', terms)
    ensures BasicHeld(grammar[..i + 1], side, terms, nts, m')
    ensures OnlyBasic(grammar[..i + 1], side, terms, nts, m')
  {
    var b := Basic(grammar[i], side, terms, nts);
    if b.Some? {
      InsertKeepsWellFormed(m, grammar[i][0], b.value, terms);
    }
    assert Grows(m, m');
    BasicHeldStep(grammar, side, terms, nts, m, m', i);
    OnlyBasicStep(grammar, side, terms, nts, m, m', i);
  }

  lemma InsertKeepsWellFormed(m: VTMap, a: char, x: char, terms: seq<char>)
    requires WellFormed(m, terms) && x in terms
    ensures WellFormed(m[a := Insert(Get(m, a), x)], terms)
  {
    var m' := m[a := Insert(Get(m, a), x)];
    assert NoDup(Get(m, a));
    forall k ensures NoDup(Get(m', k)) && forall t :: t in Get(m', k) ==> t in terms {
      if k != a {
        assert Get(m', k) == Get(m, k);
      }
    }
  }

  lemma BasicHeldStep(grammar: seq<seq<char>>, side: OPSets.Side, terms: seq<char>, nts: seq<char>,
                      m: VTMap, m': VTMap, i: nat)
    requires RulesOk(grammar, side) && i < |grammar|
    requires BasicHeld(grammar[..i], side, terms, nts, m) && Grows(m, m')
    requires BasicIn(grammar[i], side, terms, nts, m')
    ensures BasicHeld(grammar[..i + 1], side, terms, nts, m')
  {
    var g, g' := grammar[..i], grammar[..i + 1];
    forall j | 0 <= j < i + 1 ensures BasicIn(g'[j], side, terms, nts, m') {
      if j < i {
        assert g'[j] == g[j];
        assert BasicIn(g[j], side, terms, nts, m);
      }
    }
  }

  lemma OnlyBasicStep(grammar: seq<seq<char>>, side: OPSets.Side, terms: seq<char>, nts: seq<char>,
                      m: VTMap, m': VTMap, i: nat)
    requires RulesOk(grammar, side) && i < |grammar|
    requires OnlyBasic(grammar[..i], side, terms, nts, m)
    requires forall k :: k != grammar[i][0] ==> Get(m', k) == Get(m, k)
    requires forall t :: t in Get(m', grammar[i][0]) && t !in Get(m, grammar[i][0]) ==>
               Basic(grammar[i], side, terms, nts) == Some(t)
    ensures OnlyBasic(grammar[..i + 1], side, terms, nts, m')
  {
    var g, g' := grammar[..i], grammar[..i + 1];
    forall k, t | t in Get(m', k) ensures FromBasic(g', side, terms, nts, k, t) {
      if t in Get(m, k) {
        assert FromBasic(g, side, terms, nts, k, t);
        var j :| 0 <= j < |g| && g[j][0] == k && Basic(g[j], side, terms, nts) == Some(t);
        assert g'[j] == g[j];
      } else {
        assert k == grammar[i][0];
        assert g'[i] == grammar[i];
        assert 0 <= i < |g'| && g'[i][0] == k && Basic(g'[i], side, terms, nts) == Some(t);
      }
    }
  }

  /** The inner loop of Case 2: push onto the set of a every terminal of
      the set of b it does not hold yet; `updated` reports a push. */
  method Inherit(m: VTMap, a: char, b: char) returns (m': VTMap, updated: bool)
    requires a != b
    ensures updated <==> exists t :: t in Get(m, b) && t !in Get(m, a)
    ensures m' == if updated then m[a := InsertAll(Get(m, a), Get(m, b))] else m
  {
    m', updated := m, false;
    var from := Get(m, b);
    var k := 0;
    while k < |from|
      invariant 0 <= k <= |from|
      invariant Get(m', a) == InsertAll(Get(m, a), from[..k])
      invariant m' == if updated then m[a := Get(m', a)] else m
      invariant updated <==> exists t :: t in from[..k] && t !in Get(m, a)
    {
      var terminal := from[k];
      assert from[..k + 1] == from[..k] + [terminal];
      InsertAllSnoc(Get(m, a), from[..k], terminal);
      if terminal !in Get(m', a) {
        m' := m'[a := Get(m', a) + [terminal]];
        updated := true;
      }
      k := k + 1;
    }
    assert from[..k] == from;
  }

  /** One pass of the Case 2 loop over all rules. */
  method InheritPass(grammar: seq<seq<char>>, terminals: seq<char>, nonTerminals: seq<char>,
                     side: OPSets.Side, m: VTMap)
    returns (m': VTMap, updated: bool)
    requires RulesOk(grammar, side)
    requires WellFormed(m, terminals) && Least(grammar, side, terminals, nonTerminals, m)
    ensures WellFormed(m', terminals) && Least(grammar, side, terminals, nonTerminals, m')
    ensures Grows(m, m') && Extends(m, m')
    ensures updated ==> Missing(grammar, side, terminals, m') < Missing(grammar, side, terminals, m)
    ensures !updated ==> m' == m && InheritHeld(grammar, side, nonTerminals, m)
  {
    m', updated := m, false;
    var i := 0;
    while i < |grammar|
      invariant 0 <= i <= |grammar|
      invariant WellFormed(m', terminals) && Least(grammar, side, terminals, nonTerminals, m')
      invariant Grows(m, m') && Extends(m, m')
      invariant Missing(grammar, side, terminals, m') <= Missing(grammar, side, terminals, m)
      invariant updated ==> Missing(grammar, side, terminals, m') < Missing(grammar, side, terminals, m)
      invariant !updated ==> m' == m && forall j :: 0 <= j < i ==> InheritIn(grammar[j], side, nonTerminals, m)
    {
      var pushed;
      m', pushed := InheritRule(grammar, terminals, nonTerminals, side, m', i);
      if pushed {
        updated := true;
      }
      i := i + 1;
    }
  }

  /** The body of the Case 2 loop for rule i. */
  method InheritRule(grammar: seq<seq<char>>, terminals: seq<char>, nonTerminals: seq<char>,
                     side: OPSets.Side, m: VTMap, i: nat)
    returns (m': VTMap, pushed: bool)
    requires RulesOk(grammar, side) && i < |grammar|
    requires WellFormed(m, terminals) && Least(grammar, side, terminals, nonTerminals, m)
    ensures WellFormed(m', terminals) && Least(grammar, side, terminals, nonTerminals, m')
    ensures Grows(m, m') && Extends(m, m')
    ensures pushed ==> Missing(grammar, side, terminals, m') < Missing(grammar, side, terminals, m)
    ensures !pushed ==> m' == m && InheritIn(grammar[i], side, nonTerminals, m)
  {
    m', pushed := m, false;
    var rule := grammar[i];
    var A := rule[0];
    var B := if side == OPSets.First then At(rule, 3) else rule[|rule| - 1];
    var isNonTerminal := IsListed(B, nonTerminals);
    if isNonTerminal && A != B {
      m', pushed := Inherit(m, A, B);
      if pushed {
        InheritStep(grammar, side, terminals, nonTerminals, m, i);
      }
    }
  }

  /** What a pass gains from one inheriting rule that pushes something. */
  lemma InheritStep(grammar: seq<seq<char>>, side: OPSets.Side, terms: seq<char>, nts: seq<char>, m: VTMap, i: nat)
    requires RulesOk(grammar, side) && i < |grammar| && Inherits(grammar[i], side, nts)
    requires WellFormed(m, terms) && Least(grammar, side, terms, nts, m)
    requires exists t :: t in Get(m, Lead(grammar[i], side)) && t !in Get(m, grammar[i][0])
    ensures var a, b := grammar[i][0], Lead(grammar[i], side);
            var m' := m[a := InsertAll(Get(m, a), Get(m, b))];
            && WellFormed(m', terms) && Least(grammar, side, terms, nts, m')
            && Grows(m, m') && Extends(m, m')
            && Missing(grammar, side, terms, m') < Missing(grammar, side, terms, m)
  {
    var a, b := grammar[i][0], Lead(grammar[i], side);
    var m' := m[a := InsertAll(Get(m, a), Get(m, b))];
    InheritGrows(m, a, b);
    InheritKeepsWellFormed(m, a, b, terms);
    InheritKeepsLeast(grammar, side, terms, nts, m, i);
    var t :| t in Get(m, b) && t !in Get(m, a);
    MissingShrinks(grammar, side, terms, m, m', i, t);
  }

  /** CalculateFirstVT (side First) and CalculateLastVT (side Last): the
      least assignment closed under both cases, every list duplicate-free. */
  method CalculateVT(grammar: seq<seq<char>>, terminals: seq<char>, nonTerminals: seq<char>, side: OPSets.Side)
    returns (vt: VTMap)
    requires RulesOk(grammar, side)
    ensures WellFormed(vt, terminals)
    ensures Closed(grammar, side, terminals, nonTerminals, vt)
    ensures Least(grammar, side, terminals, nonTerminals, vt)
  {
    vt := BasicPass(grammar, terminals, nonTerminals, side);
    BasicIsLeast(grammar, side, terminals, nonTerminals, vt);
    var updated := true;
    while updated
      invariant WellFormed(vt, terminals)
      invariant BasicHeld(grammar, side, terminals, nonTerminals, vt)
      invariant Least(grammar, side, terminals, nonTerminals, vt)
      invariant !updated ==> InheritHeld(grammar, side, nonTerminals, vt)
      decreases Missing(grammar, side, terminals, vt), updated
    {
      ghost var before := vt;
      vt, updated := InheritPass(grammar, terminals, nonTerminals, side, vt);
      KeepsBasic(grammar, side, terminals, nonTerminals, before, vt);
    }
  }
}

/** OperatorPriority.cpp, FIRSTVT and LASTVT. The two halves of the source
    are mirror images: FIRSTVT reads a right side from its first symbol,
    LASTVT from its last. Both are modelled once, with a `Side` saying which
    end is read and which of the two tables is written. */
module OPSets {
  import opened Seqs
  import opened OPGrammar

  datatype Side = First | Last

  /** One row of firstVT or lastVT: the non-terminal and its terminal string. */
  datatype VTEntry = VTEntry(symbol: char, terminals: seq<char>)

  function Symbols(vt: seq<VTEntry>): (r: seq<char>)
    ensures |r| == |vt| && forall i :: 0 <= i < |vt| ==> r[i] == vt[i].symbol
  {
    seq(|vt|, i requires 0 <= i < |vt| => vt[i].symbol)
  }

  /** The terminal string recorded for non-terminal c (the first row naming it). */
  function TerminalsOf(vt: seq<VTEntry>, c: char): seq<char>
    requires c in Symbols(vt)
  {
    vt[IndexOf(Symbols(vt), c)].terminals
  }

  /** The symbol the rules read first: rhs[0] for FIRSTVT, rhs[len-1] for LASTVT. */
  function Lead(rhs: seq<char>, side: Side): char
    requires |rhs| > 0
  {
    if side == First then rhs[0] else rhs[|rhs| - 1]
  }

  /** The symbol next to it: rhs[1] for FIRSTVT, rhs[len-2] for LASTVT. */
  function Second(rhs: seq<char>, side: Side): char
    requires |rhs| >= 2
  {
    if side == First then rhs[1] else rhs[|rhs| - 2]
  }

  /** Rule 1: P->a... (P->...a) */
  predicate TerminalLead(p: Production, side: Side) {
    |p.rhs| > 0 && !IsNonTerminal(Lead(p.rhs, side))
  }

  /** Rule 2: P->Q... (P->...Q) with Q a non-terminal other than P */
  predicate Inherits(p: Production, side: Side) {
    |p.rhs| > 0 && IsNonTerminal(Lead(p.rhs, side)) && Lead(p.rhs, side) != p.lhs
  }

  /** Rule 3: P->Qa... (P->...aQ) */
  predicate TerminalSecond(p: Production, side: Side) {
    |p.rhs| >= 2 && IsNonTerminal(Lead(p.rhs, side)) && !IsNonTerminal(Second(p.rhs, side))
  }

  /** What the three rules demand of the table for production p. */
  ghost predicate RuleHolds(p: Production, vt: seq<VTEntry>, side: Side) {
    && p.lhs in Symbols(vt)
    && (TerminalLead(p, side) ==> Lead(p.rhs, side) in TerminalsOf(vt, p.lhs))
    && (Inherits(p, side) ==>
          Lead(p.rhs, side) in Symbols(vt) &&
          Elems(TerminalsOf(vt, Lead(p.rhs, side))) <= Elems(TerminalsOf(vt, p.lhs)))
    && (TerminalSecond(p, side) ==> Second(p.rhs, side) in TerminalsOf(vt, p.lhs))
  }

  /** Every production of x satisfies the rules. */
  ghost predicate Closed(prods: seq<Production>, vt: seq<VTEntry>, side: Side, x: char) {
    x in Symbols(vt) &&
    forall i :: 0 <= i < |prods| && prods[i].lhs == x ==> RuleHolds(prods[i], vt, side)
  }

  /** The dependency of a left side on the non-terminal its productions
      inherit from is acyclic apart from self-loops: rank strictly drops
      along every such dependency. */
  ghost predicate Ranked(prods: seq<Production>, side: Side, rank: map<char, nat>) {
    forall i :: 0 <= i < |prods| ==>
      prods[i].lhs in rank &&
      (Inherits(prods[i], side) ==>
         Lead(prods[i].rhs, side) in rank && rank[Lead(prods[i].rhs, side)] < rank[prods[i].lhs])
  }

  /** x and everything x inherits from, directly or not, satisfy the rules. */
  ghost predicate FullyClosed(prods: seq<Production>, vt: seq<VTEntry>, side: Side,
                              rank: map<char, nat>, x: char)
    decreases if x in rank then rank[x] else 0
  {
    && Ranked(prods, side, rank)
    && x in rank
    && Closed(prods, vt, side, x)
    && forall i :: 0 <= i < |prods| && prods[i].lhs == x && Inherits(prods[i], side) ==>
         FullyClosed(prods, vt, side, rank, Lead(prods[i].rhs, side))
  }

  /** Every row keeps its symbol and its terminal string only grows at the end. */
  ghost predicate Grows(vt: seq<VTEntry>, vt': seq<VTEntry>) {
    |vt'| == |vt| &&
    forall i :: 0 <= i < |vt| ==>
      vt'[i].symbol == vt[i].symbol && vt[i].terminals <= vt'[i].terminals
  }

  /** Non-terminals that were fully closed stay so, with their strings unchanged. */
  ghost predicate Preserves(prods: seq<Production>, side: Side, rank: map<char, nat>,
                            vt: seq<VTEntry>, vt': seq<VTEntry>)
    requires Symbols(vt') == Symbols(vt)
  {
    forall x {:trigger FullyClosed(prods, vt, side, rank, x)} ::
      FullyClosed(prods, vt, side, rank, x) ==>
        FullyClosed(prods, vt', side, rank, x) && TerminalsOf(vt', x) == TerminalsOf(vt, x)
  }

  /** A terminal string as the source keeps it: no repeats and no upper-case letter. */
  predicate WellFormed(t: seq<char>) {
    NoDup(t) && forall k :: 0 <= k < |t| ==> !IsNonTerminal(t[k])
  }

  predicate RowsWellFormed(vt: seq<VTEntry>) {
    forall i :: 0 <= i < |vt| ==> WellFormed(vt[i].terminals)
  }

  /** Every recorded terminal occurs in some right side. */
  ghost predicate Sound(prods: seq<Production>, vt: seq<VTEntry>) {
    forall i, k :: 0 <= i < |vt| && 0 <= k < |vt[i].terminals| ==> OccursInRhs(prods, vt[i].terminals[k])
  }

  ghost predicate OccursInRhs(prods: seq<Production>, c: char) {
    exists i, j :: 0 <= i < |prods| && 0 <= j < |prods[i].rhs| && prods[i].rhs[j] == c
  }

  /** Changing only the row of a non-terminal that is not fully closed
      leaves every fully closed non-terminal as it was. */
  lemma {:induction false} OtherRowsPreserved(prods: seq<Production>, side: Side, rank: map<char, nat>,
                                              vt: seq<VTEntry>, vt': seq<VTEntry>, x: char, y: char)
    requires Symbols(vt') == Symbols(vt) && x in Symbols(vt)
    requires forall z :: z in Symbols(vt) && z != x ==> TerminalsOf(vt', z) == TerminalsOf(vt, z)
    requires !FullyClosed(prods, vt, side, rank, x)
    requires FullyClosed(prods, vt, side, rank, y)
    ensures FullyClosed(prods, vt', side, rank, y) && TerminalsOf(vt', y) == TerminalsOf(vt, y)
    decreases rank[y]
  {
    forall i | 0 <= i < |prods| && prods[i].lhs == y
      ensures RuleHolds(prods[i], vt', side)
      ensures Inherits(prods[i], side) ==> FullyClosed(prods, vt', side, rank, Lead(prods[i].rhs, side))
    {
      assert RuleHolds(prods[i], vt, side);
      if Inherits(prods[i], side) {
        OtherRowsPreserved(prods, side, rank, vt, vt', x, Lead(prods[i].rhs, side));
      }
    }
  }

  /** One write to the row of x, harmless when x is already fully closed. */
  lemma RowWritePreserves(prods: seq<Production>, side: Side, rank: map<char, nat>,
                          vt: seq<VTEntry>, index: nat, t: seq<char>)
    requires index < |vt| && IndexOf(Symbols(vt), vt[index].symbol) == index
    requires vt[index].terminals <= t
    requires FullyClosed(prods, vt, side, rank, vt[index].symbol) ==> t == vt[index].terminals
    ensures Symbols(vt[index := VTEntry(vt[index].symbol, t)]) == Symbols(vt)
    ensures Grows(vt, vt[index := VTEntry(vt[index].symbol, t)])
    ensures Preserves(prods, side, rank, vt, vt[index := VTEntry(vt[index].symbol, t)])
  {
    var x := vt[index].symbol;
    var vt' := vt[index := VTEntry(x, t)];
    assert Symbols(vt') == Symbols(vt);
    if !FullyClosed(prods, vt, side, rank, x) {
      forall y | FullyClosed(prods, vt, side, rank, y)
        ensures FullyClosed(prods, vt', side, rank, y) && TerminalsOf(vt', y) == TerminalsOf(vt, y)
      {
        OtherRowsPreserved(prods, side, rank, vt, vt', x, y);
      }
    } else {
      assert vt' == vt;
    }
  }

  lemma PreservesTransitive(prods: seq<Production>, side: Side, rank: map<char, nat>,
                            vt1: seq<VTEntry>, vt2: seq<VTEntry>, vt3: seq<VTEntry>)
    requires Symbols(vt2) == Symbols(vt1) && Symbols(vt3) == Symbols(vt2)
    requires Preserves(prods, side, rank, vt1, vt2) && Preserves(prods, side, rank, vt2, vt3)
    ensures Preserves(prods, side, rank, vt1, vt3)
  {
  }

  /** The facts recorded for one production of x survive later growth. */
  lemma HoldsPersist(prods: seq<Production>, side: Side, rank: map<char, nat>,
                     vt: seq<VTEntry>, vt': seq<VTEntry>, p: Production)
    requires Symbols(vt') == Symbols(vt) && Grows(vt, vt')
    requires Preserves(prods, side, rank, vt, vt')
    requires RuleHolds(p, vt, side)
    requires Inherits(p, side) ==> FullyClosed(prods, vt, side, rank, Lead(p.rhs, side))
    ensures RuleHolds(p, vt', side)
    ensures Inherits(p, side) ==> FullyClosed(prods, vt', side, rank, Lead(p.rhs, side))
  {
    var t, t' := TerminalsOf(vt, p.lhs), TerminalsOf(vt', p.lhs);
    assert t <= t';
    assert forall c :: c in t ==> c in t' by {
      forall c | c in t ensures c in t' {
        var k :| 0 <= k < |t| && t[k] == c;
        assert t'[k] == c;
      }
    }
  }

  /** addToFirstVT / addToLastVT for one character: an upper-case letter or a
      terminal already present leaves the string as it is; otherwise the
      terminal is appended. */
  function AddVT(t: seq<char>, c: char): seq<char> {
    if IsNonTerminal(c) then t else Insert(t, c)
  }

  /** The characters of s that are not upper-case letters, in order. */
  function NonUpper(s: seq<char>): seq<char>
    decreases |s|
  {
    if |s| == 0 then []
    else NonUpper(s[..|s| - 1]) + (if IsNonTerminal(s[|s| - 1]) then [] else [s[|s| - 1]])
  }

  /** addToFirstVT / addToLastVT for a string: each of its characters in turn. */
  function AddAllVT(t: seq<char>, s: seq<char>): seq<char> {
    InsertAll(t, NonUpper(s))
  }

  lemma NonUpperPrefix(s: seq<char>, j: nat)
    requires j < |s|
    ensures NonUpper(s[..j + 1]) == NonUpper(s[..j]) + (if IsNonTerminal(s[j]) then [] else [s[j]])
  {
    assert s[..j + 1][..j] == s[..j];
  }

  lemma {:induction false} NonUpperMembers(s: seq<char>)
    ensures forall c :: c in NonUpper(s) <==> c in s && !IsNonTerminal(c)
    decreases |s|
  {
    if |s| > 0 {
      NonUpperMembers(s[..|s| - 1]);
      assert s == s[..|s| - 1] + [s[|s| - 1]];
    }
  }

  /** Adding one character: an upper-case letter is never added, a present
      terminal changes nothing, a new one goes at the end; the string stays
      well formed and adding twice is adding once. */
  lemma AddVTFacts(t: seq<char>, c: char)
    requires WellFormed(t)
    ensures WellFormed(AddVT(t, c))
    ensures IsNonTerminal(c) || c in t ==> AddVT(t, c) == t
    ensures !IsNonTerminal(c) && c !in t ==> AddVT(t, c) == t + [c]
    ensures AddVT(AddVT(t, c), c) == AddVT(t, c)
  {
  }

  /** Adding a string: the result extends t by exactly the new non-upper-case
      characters of s, stays well formed, and adding twice is adding once. */
  lemma AddAllVTFacts(t: seq<char>, s: seq<char>)
    requires WellFormed(t)
    ensures WellFormed(AddAllVT(t, s))
    ensures t <= AddAllVT(t, s)
    ensures forall c :: c in AddAllVT(t, s) <==> c in t || (c in s && !IsNonTerminal(c))
    ensures AddAllVT(AddAllVT(t, s), s) == AddAllVT(t, s)
    ensures (forall c :: c in s && !IsNonTerminal(c) ==> c in t) ==> AddAllVT(t, s) == t
  {
    NonUpperMembers(s);
    InsertAllMembers(t, NonUpper(s));
    InsertAllNoDup(t, NonUpper(s));
    InsertAllPrefix(t, NonUpper(s));
    InsertAllIdempotent(t, NonUpper(s));
    if forall c :: c in s && !IsNonTerminal(c) ==> c in t {
      InsertAllPresent(t, NonUpper(s));
    }
    var r := AddAllVT(t, s);
    forall k | 0 <= k < |r| ensures !IsNonTerminal(r[k]) {
      assert r[k] in r;
      if r[k] in t {
        var m :| 0 <= m < |t| && t[m] == r[k];
      }
    }
  }

  /** The left sides of the productions, in order. */
  function Lefts(prods: seq<Production>): (r: seq<char>)
    ensures |r| == |prods| && forall i :: 0 <= i < |prods| ==> r[i] == prods[i].lhs
  {
    seq(|prods|, i requires 0 <= i < |prods| => prods[i].lhs)
  }

  /** extractNonTerminals on an empty table: every distinct left side once,
      in the order of first occurrence. */
  lemma ExtractFacts(prods: seq<Production>)
    ensures NoDup(InsertAll([], Lefts(prods)))
    ensures forall c :: c in InsertAll([], Lefts(prods)) <==> exists i :: 0 <= i < |prods| && prods[i].lhs == c
    ensures FirstSeenOrder(InsertAll([], Lefts(prods)), Lefts(prods))
  {
    DedupFacts(Lefts(prods));
    forall c ensures c in Lefts(prods) <==> exists i :: 0 <= i < |prods| && prods[i].lhs == c {
      if c in Lefts(prods) {
        var i :| 0 <= i < |prods| && Lefts(prods)[i] == c;
      }
    }
  }

  /** vt with the terminal string of row index replaced by t. */
  function WithRow(vt: seq<VTEntry>, index: int, t: seq<char>): (r: seq<VTEntry>)
    requires 0 <= index < |vt|
    ensures |r| == |vt| && Symbols(r) == Symbols(vt) && r[index].terminals == t
    ensures forall k :: 0 <= k < |vt| && k != index ==> r[k] == vt[k]
  {
    vt[index := VTEntry(vt[index].symbol, t)]
  }

  function Other(side: Side): Side {
    if side == First then Last else First
  }

  /** The reference definition: terminal a is in FIRSTVT(x) (LASTVT(x)) when
      some production of x yields it by rule 1 or rule 3, or inherits it by
      rule 2 from a non-terminal that has it. */
  ghost predicate InVT(prods: seq<Production>, side: Side, rank: map<char, nat>, x: char, a: char)
    decreases if x in rank then rank[x] else 0
  {
    && Ranked(prods, side, rank)
    && x in rank
    && exists i :: 0 <= i < |prods| && prods[i].lhs == x && YieldsVia(prods, side, rank, i, a)
  }

  /** Production i yields a for its left side (the rank guard keeps the
      recursion well founded). */
  ghost predicate YieldsVia(prods: seq<Production>, side: Side, rank: map<char, nat>, i: int, a: char)
    requires 0 <= i < |prods| && Ranked(prods, side, rank)
    decreases rank[prods[i].lhs], 0
  {
    || (TerminalLead(prods[i], side) && Lead(prods[i].rhs, side) == a)
    || (TerminalSecond(prods[i], side) && Second(prods[i].rhs, side) == a)
    || (Inherits(prods[i], side) && InVT(prods, side, rank, Lead(prods[i].rhs, side), a))
  }

  /** Every terminal recorded in the table belongs there. */
  ghost predicate Justified(prods: seq<Production>, side: Side, rank: map<char, nat>, vt: seq<VTEntry>) {
    forall r, k :: 0 <= r < |vt| && 0 <= k < |vt[r].terminals| ==>
      InVT(prods, side, rank, vt[r].symbol, vt[r].terminals[k])
  }

  /** A terminal of FIRSTVT(x) (LASTVT(x)) is a terminal of some right side. */
  lemma {:induction false} InVTOccurs(prods: seq<Production>, side: Side, rank: map<char, nat>, x: char, a: char)
    requires InVT(prods, side, rank, x, a)
    ensures OccursInRhs(prods, a) && !IsNonTerminal(a)
    decreases rank[x]
  {
    var i :| 0 <= i < |prods| && prods[i].lhs == x && YieldsVia(prods, side, rank, i, a);
    var rhs := prods[i].rhs;
    if TerminalLead(prods[i], side) && Lead(rhs, side) == a {
      assert rhs[if side == First then 0 else |rhs| - 1] == a;
    } else if TerminalSecond(prods[i], side) && Second(rhs, side) == a {
      assert rhs[if side == First then 1 else |rhs| - 2] == a;
    } else {
      InVTOccurs(prods, side, rank, Lead(rhs, side), a);
    }
  }

  /** A justified table records only terminals of right sides. */
  lemma JustifiedSound(prods: seq<Production>, side: Side, rank: map<char, nat>, vt: seq<VTEntry>)
    requires Justified(prods, side, rank, vt)
    ensures Sound(prods, vt)
  {
    forall r, k | 0 <= r < |vt| && 0 <= k < |vt[r].terminals|
      ensures OccursInRhs(prods, vt[r].terminals[k])
    {
      InVTOccurs(prods, side, rank, vt[r].symbol, vt[r].terminals[k]);
    }
  }

  /** Every non-terminal a production inherits from has a row. */
  predicate LeadsKnown(prods: seq<Production>, side: Side, symbols: seq<char>) {
    forall i :: 0 <= i < |prods| && Inherits(prods[i], side) ==> Lead(prods[i].rhs, side) in symbols
  }

  /** What ComputeVT may do to the table it writes: rows keep their symbols,
      strings only grow at the end, and fully closed entries stay as they are. */
  ghost predicate Evolves(prods: seq<Production>, side: Side, rank: map<char, nat>,
                          vt: seq<VTEntry>, vt': seq<VTEntry>) {
    && Symbols(vt') == Symbols(vt)
    && Grows(vt, vt')
    && Preserves(prods, side, rank, vt, vt')
  }

  lemma EvolvesTransitive(prods: seq<Production>, side: Side, rank: map<char, nat>,
                          vt1: seq<VTEntry>, vt2: seq<VTEntry>, vt3: seq<VTEntry>)
    requires Evolves(prods, side, rank, vt1, vt2) && Evolves(prods, side, rank, vt2, vt3)
    ensures Evolves(prods, side, rank, vt1, vt3)
  {
    PreservesTransitive(prods, side, rank, vt1, vt2, vt3);
    GrowsTransitive(vt1, vt2, vt3);
  }

  /** Production j of x has had its rules applied: they hold, and what it
      inherits from is fully closed. */
  ghost predicate Done(prods: seq<Production>, side: Side, rank: map<char, nat>, vt: seq<VTEntry>, j: int)
    requires 0 <= j < |prods|
  {
    RuleHolds(prods[j], vt, side) &&
    (Inherits(prods[j], side) ==> FullyClosed(prods, vt, side, rank, Lead(prods[j].rhs, side)))
  }

  /** The rule-2 part of Done. */
  ghost predicate InheritDone(prods: seq<Production>, side: Side, rank: map<char, nat>, vt: seq<VTEntry>, i: int)
    requires 0 <= i < |prods|
  {
    Inherits(prods[i], side) ==>
      && prods[i].lhs in Symbols(vt)
      && Lead(prods[i].rhs, side) in Symbols(vt)
      && Elems(TerminalsOf(vt, Lead(prods[i].rhs, side))) <= Elems(TerminalsOf(vt, prods[i].lhs))
      && FullyClosed(prods, vt, side, rank, Lead(prods[i].rhs, side))
  }

  lemma InheritPersists(prods: seq<Production>, side: Side, rank: map<char, nat>,
                        vt: seq<VTEntry>, vt': seq<VTEntry>, i: int)
    requires 0 <= i < |prods| && Evolves(prods, side, rank, vt, vt')
    requires InheritDone(prods, side, rank, vt, i)
    ensures InheritDone(prods, side, rank, vt', i)
  {
    if Inherits(prods[i], side) {
      var x, q := prods[i].lhs, Lead(prods[i].rhs, side);
      assert TerminalsOf(vt, x) <= TerminalsOf(vt', x);
      PrefixElems(TerminalsOf(vt, x), TerminalsOf(vt', x));
    }
  }

  /** The three parts of Done, put together. */
  lemma DoneFromParts(prods: seq<Production>, side: Side, rank: map<char, nat>, vt: seq<VTEntry>, i: int)
    requires 0 <= i < |prods| && prods[i].lhs in Symbols(vt)
    requires TerminalLead(prods[i], side) ==> Lead(prods[i].rhs, side) in TerminalsOf(vt, prods[i].lhs)
    requires InheritDone(prods, side, rank, vt, i)
    requires TerminalSecond(prods[i], side) ==> Second(prods[i].rhs, side) in TerminalsOf(vt, prods[i].lhs)
    ensures Done(prods, side, rank, vt, i)
  {
  }

  /** Adding to row index terminals that belong to its non-terminal: the
      row takes them all, fully closed entries do not change, and every
      recorded terminal still belongs where it is. */
  lemma AddPreserves(prods: seq<Production>, side: Side, rank: map<char, nat>,
                     vt: seq<VTEntry>, index: nat, s: seq<char>)
    requires index < |vt| && IndexOf(Symbols(vt), vt[index].symbol) == index
    requires RowsWellFormed(vt) && Justified(prods, side, rank, vt)
    requires forall c :: c in s && !IsNonTerminal(c) ==> InVT(prods, side, rank, vt[index].symbol, c)
    ensures Evolves(prods, side, rank, vt, WithRow(vt, index, AddAllVT(vt[index].terminals, s)))
    ensures Justified(prods, side, rank, WithRow(vt, index, AddAllVT(vt[index].terminals, s)))
    ensures RowsWellFormed(WithRow(vt, index, AddAllVT(vt[index].terminals, s)))
    ensures forall c :: c in s && !IsNonTerminal(c) ==> c in AddAllVT(vt[index].terminals, s)
  {
    var x := vt[index].symbol;
    var t := AddAllVT(vt[index].terminals, s);
    var vt' := WithRow(vt, index, t);
    AddAllVTFacts(vt[index].terminals, s);
    if FullyClosed(prods, vt, side, rank, x) {
      forall c | c in s && !IsNonTerminal(c) ensures c in vt[index].terminals {
        ClosedComplete(prods, side, rank, vt, x, c);
      }
    }
    RowWritePreserves(prods, side, rank, vt, index, t);
    forall r, k | 0 <= r < |vt'| && 0 <= k < |vt'[r].terminals|
      ensures InVT(prods, side, rank, vt'[r].symbol, vt'[r].terminals[k])
    {
      if r == index {
        var c := t[k];
        assert c in t;
        if c in vt[index].terminals {
          var m :| 0 <= m < |vt[index].terminals| && vt[index].terminals[m] == c;
          assert InVT(prods, side, rank, vt[index].symbol, vt[index].terminals[m]);
        }
      } else {
        assert vt'[r] == vt[r];
      }
    }
  }

  /** Rule 2 for production i of x (row index) once the non-terminal q it
      inherits from (row qIndex) is fully closed: x's row takes q's string,
      after which the rule holds and q is still fully closed. */
  lemma InheritStep(prods: seq<Production>, side: Side, rank: map<char, nat>,
                    vt: seq<VTEntry>, index: nat, i: int, qIndex: nat)
    requires 0 <= i < |prods| && Inherits(prods[i], side)
    requires index < |vt| && qIndex < |vt| && NoDup(Symbols(vt))
    requires vt[index].symbol == prods[i].lhs && vt[qIndex].symbol == Lead(prods[i].rhs, side)
    requires RowsWellFormed(vt) && Justified(prods, side, rank, vt)
    requires FullyClosed(prods, vt, side, rank, vt[qIndex].symbol)
    ensures Evolves(prods, side, rank, vt, WithRow(vt, index, AddAllVT(vt[index].terminals, vt[qIndex].terminals)))
    ensures Justified(prods, side, rank, WithRow(vt, index, AddAllVT(vt[index].terminals, vt[qIndex].terminals)))
    ensures RowsWellFormed(WithRow(vt, index, AddAllVT(vt[index].terminals, vt[qIndex].terminals)))
    ensures InheritDone(prods, side, rank, WithRow(vt, index, AddAllVT(vt[index].terminals, vt[qIndex].terminals)), i)
  {
    var q, qVT := vt[qIndex].symbol, vt[qIndex].terminals;
    IndexOfNoDup(Symbols(vt), index);
    IndexOfNoDup(Symbols(vt), qIndex);
    forall c | c in qVT && !IsNonTerminal(c)
      ensures InVT(prods, side, rank, prods[i].lhs, c)
    {
      var k :| 0 <= k < |qVT| && qVT[k] == c;
      assert InVT(prods, side, rank, vt[qIndex].symbol, vt[qIndex].terminals[k]);
      assert YieldsVia(prods, side, rank, i, c);
    }
    AddPreserves(prods, side, rank, vt, index, qVT);
    var vt' := WithRow(vt, index, AddAllVT(vt[index].terminals, qVT));
    assert index != qIndex;
    assert TerminalsOf(vt', q) == qVT;
    forall c | c in Elems(qVT) ensures c in Elems(TerminalsOf(vt', prods[i].lhs)) {
      var k :| 0 <= k < |qVT| && qVT[k] == c;
    }
  }

  /** Rule 1 or rule 3 writing terminal a, which production i yields for x (row index). */
  lemma YieldStep(prods: seq<Production>, side: Side, rank: map<char, nat>,
                  vt: seq<VTEntry>, index: nat, i: int, a: char)
    requires 0 <= i < |prods| && Ranked(prods, side, rank)
    requires index < |vt| && NoDup(Symbols(vt)) && vt[index].symbol == prods[i].lhs
    requires RowsWellFormed(vt) && Justified(prods, side, rank, vt)
    requires !IsNonTerminal(a) && YieldsVia(prods, side, rank, i, a)
    ensures Evolves(prods, side, rank, vt, WithRow(vt, index, AddVT(vt[index].terminals, a)))
    ensures Justified(prods, side, rank, WithRow(vt, index, AddVT(vt[index].terminals, a)))
    ensures RowsWellFormed(WithRow(vt, index, AddVT(vt[index].terminals, a)))
    ensures a in TerminalsOf(WithRow(vt, index, AddVT(vt[index].terminals, a)), prods[i].lhs)
  {
    IndexOfNoDup(Symbols(vt), index);
    assert prods[i].lhs in rank;
    assert InVT(prods, side, rank, prods[i].lhs, a);
    AddVTIsAddAll(vt[index].terminals, a);
    AddPreserves(prods, side, rank, vt, index, [a]);
  }

  lemma GrowsTransitive(vt1: seq<VTEntry>, vt2: seq<VTEntry>, vt3: seq<VTEntry>)
    requires Grows(vt1, vt2) && Grows(vt2, vt3)
    ensures Grows(vt1, vt3)
  {
    forall i | 0 <= i < |vt1| ensures vt1[i].terminals <= vt3[i].terminals {
      assert vt3[i].terminals[..|vt1[i].terminals|] == vt3[i].terminals[..|vt2[i].terminals|][..|vt1[i].terminals|];
    }
  }

  lemma PrefixElems(t: seq<char>, t': seq<char>)
    requires t <= t'
    ensures Elems(t) <= Elems(t')
  {
    forall c | c in Elems(t) ensures c in Elems(t') {
      var k :| 0 <= k < |t| && t[k] == c;
      assert t'[k] == c;
    }
  }

  lemma AddAllVTSnoc(t: seq<char>, s: seq<char>, c: char)
    ensures AddAllVT(t, s + [c]) == AddVT(AddAllVT(t, s), c)
  {
    assert (s + [c])[..|s|] == s;
    assert NonUpper(s + [c]) == NonUpper(s) + (if IsNonTerminal(c) then [] else [c]);
    if !IsNonTerminal(c) {
      InsertAllSnoc(t, NonUpper(s), c);
    } else {
      assert NonUpper(s + [c]) == NonUpper(s);
    }
  }

  lemma AddVTIsAddAll(t: seq<char>, c: char)
    ensures AddVT(t, c) == AddAllVT(t, [c])
  {
    assert [c][..0] == [];
    assert NonUpper([c]) == if IsNonTerminal(c) then [] else [c];
    if !IsNonTerminal(c) {
      assert InsertAll(t, [c]) == Insert(InsertAll(t, []), c);
    }
  }

  /** Once x is fully closed, every terminal the reference definition gives
      x is recorded for it. */
  lemma {:induction false} ClosedComplete(prods: seq<Production>, side: Side, rank: map<char, nat>,
                                          vt: seq<VTEntry>, x: char, a: char)
    requires FullyClosed(prods, vt, side, rank, x)
    requires InVT(prods, side, rank, x, a)
    ensures a in TerminalsOf(vt, x)
    decreases rank[x]
  {
    var i :| 0 <= i < |prods| && prods[i].lhs == x && YieldsVia(prods, side, rank, i, a);
    assert RuleHolds(prods[i], vt, side);
    if !(TerminalLead(prods[i], side) && Lead(prods[i].rhs, side) == a)
       && !(TerminalSecond(prods[i], side) && Second(prods[i].rhs, side) == a) {
      var q := Lead(prods[i].rhs, side);
      ClosedComplete(prods, side, rank, vt, q, a);
      assert a in Elems(TerminalsOf(vt, q));
    }
  }

  /** The table is exact: for a fully closed x whose recorded terminals all
      belong there, a terminal is recorded for x exactly when the reference
      definition puts it in FIRSTVT(x) (LASTVT(x)). */
  lemma VTExact(prods: seq<Production>, side: Side, rank: map<char, nat>,
                vt: seq<VTEntry>, x: char)
    requires FullyClosed(prods, vt, side, rank, x)
    requires Justified(prods, side, rank, vt)
    ensures forall a :: a in TerminalsOf(vt, x) <==> InVT(prods, side, rank, x, a)
  {
    forall a ensures a in TerminalsOf(vt, x) <==> InVT(prods, side, rank, x, a) {
      if InVT(prods, side, rank, x, a) {
        ClosedComplete(prods, side, rank, vt, x, a);
      }
      if a in TerminalsOf(vt, x) {
        var r := IndexOf(Symbols(vt), x);
        var k :| 0 <= k < |vt[r].terminals| && vt[r].terminals[k] == a;
      }
    }
  }

  /** With every row fully closed and every recorded terminal justified,
      each production satisfies the rules and each row is exact. */
  lemma AllClosed(prods: seq<Production>, side: Side, rank: map<char, nat>, vt: seq<VTEntry>)
    requires forall j :: 0 <= j < |vt| ==> FullyClosed(prods, vt, side, rank, vt[j].symbol)
    requires forall i :: 0 <= i < |prods| ==> prods[i].lhs in Symbols(vt)
    requires Justified(prods, side, rank, vt)
    ensures forall i :: 0 <= i < |prods| ==> RuleHolds(prods[i], vt, side)
    ensures forall c, a :: c in Symbols(vt) ==> (a in TerminalsOf(vt, c) <==> InVT(prods, side, rank, c, a))
  {
    forall k | 0 <= k < |prods| ensures RuleHolds(prods[k], vt, side) {
      var j := IndexOf(Symbols(vt), prods[k].lhs);
      assert FullyClosed(prods, vt, side, rank, vt[j].symbol);
    }
    forall c | c in Symbols(vt)
      ensures forall a :: a in TerminalsOf(vt, c) <==> InVT(prods, side, rank, c, a)
    {
      var j := IndexOf(Symbols(vt), c);
      assert FullyClosed(prods, vt, side, rank, vt[j].symbol);
      VTExact(prods, side, rank, vt, c);
    }
  }

  lemma ClosedRowsPersist(prods: seq<Production>, side: Side, rank: map<char, nat>,
                          vt: seq<VTEntry>, vt': seq<VTEntry>, n: int)
    requires Evolves(prods, side, rank, vt, vt') && n <= |vt|
    requires forall j :: 0 <= j < n ==> FullyClosed(prods, vt, side, rank, vt[j].symbol)
    ensures forall j :: 0 <= j < n ==> FullyClosed(prods, vt', side, rank, vt'[j].symbol)
  {
    forall j | 0 <= j < n ensures FullyClosed(prods, vt', side, rank, vt'[j].symbol) {
      assert FullyClosed(prods, vt, side, rank, vt[j].symbol);
    }
  }

  /** One more row of computeAllFirstVTSets / computeAllLastVTSets done. */
  lemma NextRowClosed(prods: seq<Production>, side: Side, rank: map<char, nat>,
                      vt: seq<VTEntry>, vt': seq<VTEntry>, vt'': seq<VTEntry>, n: int)
    requires Evolves(prods, side, rank, vt, vt') && Evolves(prods, side, rank, vt', vt'')
    requires 0 <= n < |vt'|
    requires forall j :: 0 <= j < n ==> FullyClosed(prods, vt', side, rank, vt'[j].symbol)
    requires FullyClosed(prods, vt'', side, rank, vt'[n].symbol)
    ensures Evolves(prods, side, rank, vt, vt'')
    ensures forall j :: 0 <= j < n + 1 ==> FullyClosed(prods, vt'', side, rank, vt''[j].symbol)
  {
    EvolvesTransitive(prods, side, rank, vt, vt', vt'');
    ClosedRowsPersist(prods, side, rank, vt', vt'', n);
    assert vt''[n].symbol == Symbols(vt'')[n] == Symbols(vt')[n] == vt'[n].symbol;
  }

  /** Computing again changes nothing: a table whose rows are all fully
      closed can only evolve into itself. */
  lemma RecomputeUnchanged(prods: seq<Production>, side: Side, rank: map<char, nat>,
                           vt: seq<VTEntry>, vt': seq<VTEntry>)
    requires NoDup(Symbols(vt))
    requires forall j :: 0 <= j < |vt| ==> FullyClosed(prods, vt, side, rank, vt[j].symbol)
    requires Evolves(prods, side, rank, vt, vt')
    ensures vt' == vt
  {
    forall j | 0 <= j < |vt| ensures vt'[j] == vt[j] {
      IndexOfNoDup(Symbols(vt), j);
      assert FullyClosed(prods, vt, side, rank, vt[j].symbol);
      assert TerminalsOf(vt', vt[j].symbol) == TerminalsOf(vt, vt[j].symbol);
    }
  }

  /** PrecedenceSets: firstVT[i] and lastVT[i] hold non-terminal i and its
      FIRSTVT / LASTVT string; nonTerminalCount is the number of rows. */
  class PrecedenceSets {
    var firstVT: seq<VTEntry>
    var lastVT: seq<VTEntry>

    /** Both tables name the same non-terminals at the same rows, each once,
        and their strings are well formed. */
    ghost predicate Valid()
      reads this
    {
      && Symbols(lastVT) == Symbols(firstVT)
      && NoDup(Symbols(firstVT))
      && RowsWellFormed(firstVT)
      && RowsWellFormed(lastVT)
    }

    /** The table a side writes. */
    function VT(side: Side): seq<VTEntry>
      reads this
    {
      if side == First then firstVT else lastVT
    }

    constructor ()
      ensures Valid() && firstVT == [] && lastVT == []
    {
      firstVT, lastVT := [], [];
    }

    /** findNonTerminalIndex: the row naming c, or -1. */
    method FindNonTerminalIndex(c: char) returns (r: int)
      ensures r == IndexOf(Symbols(firstVT), c)
    {
      var i := 0;
      while i < |firstVT|
        invariant 0 <= i <= |firstVT|
        invariant c !in Symbols(firstVT)[..i]
      {
        if firstVT[i].symbol == c {
          assert Symbols(firstVT)[i] == c;
          return i;
        }
        assert Symbols(firstVT)[..i + 1] == Symbols(firstVT)[..i] + [firstVT[i].symbol];
        i := i + 1;
      }
      assert Symbols(firstVT)[..i] == Symbols(firstVT);
      r := -1;
    }

    /** extractNonTerminals: appends a row, to both tables, for every left
        side not named yet, in the order the productions list them. */
    method ExtractNonTerminals(grammar: Grammar)
      requires Valid()
      modifies this
      ensures Valid()
      ensures Symbols(firstVT) == InsertAll(old(Symbols(firstVT)), Lefts(grammar.productions))
      ensures old(firstVT) <= firstVT && old(lastVT) <= lastVT
      ensures forall k :: |old(firstVT)| <= k < |firstVT| ==> firstVT[k].terminals == [] && lastVT[k].terminals == []
    {
      var i := 0;
      while i < |grammar.productions|
        invariant 0 <= i <= |grammar.productions|
        invariant Valid()
        invariant Symbols(firstVT) == InsertAll(old(Symbols(firstVT)), Lefts(grammar.productions)[..i])
        invariant old(firstVT) <= firstVT && old(lastVT) <= lastVT
        invariant forall k :: |old(firstVT)| <= k < |firstVT| ==> firstVT[k].terminals == [] && lastVT[k].terminals == []
      {
        var nonTerminal := grammar.productions[i].lhs;
        var alreadyExists := IsNamed(nonTerminal);
        InsertAllSnoc(old(Symbols(firstVT)), Lefts(grammar.productions)[..i], nonTerminal);
        assert Lefts(grammar.productions)[..i + 1] == Lefts(grammar.productions)[..i] + [nonTerminal];
        if !alreadyExists {
          AddRow(nonTerminal);
        }
        i := i + 1;
      }
      assert Lefts(grammar.productions)[..i] == Lefts(grammar.productions);
    }

    /** One new row, with empty sets, in both tables. */
    method AddRow(c: char)
      requires Valid() && c !in Symbols(firstVT)
      modifies this
      ensures Valid()
      ensures firstVT == old(firstVT) + [VTEntry(c, [])] && lastVT == old(lastVT) + [VTEntry(c, [])]
      ensures Symbols(firstVT) == old(Symbols(firstVT)) + [c]
    {
      firstVT := firstVT + [VTEntry(c, [])];
      lastVT := lastVT + [VTEntry(c, [])];
      assert Symbols(firstVT) == old(Symbols(firstVT)) + [c];
    }

    /** The inner loop of extractNonTerminals: whether a row names c. */
    method IsNamed(c: char) returns (alreadyExists: bool)
      ensures alreadyExists <==> c in Symbols(firstVT)
    {
      alreadyExists := false;
      var j := 0;
      while j < |firstVT|
        invariant 0 <= j <= |firstVT|
        invariant c !in Symbols(firstVT)[..j]
      {
        if firstVT[j].symbol == c {
          assert Symbols(firstVT)[j] == c;
          alreadyExists := true;
          return;
        }
        assert Symbols(firstVT)[..j + 1] == Symbols(firstVT)[..j] + [firstVT[j].symbol];
        j := j + 1;
      }
      assert Symbols(firstVT)[..j] == Symbols(firstVT);
    }

    /** addToFirstVT / addToLastVT (one character): row index takes terminal
        unless it is upper case or already there. */
    method AddToVT(side: Side, terminal: char, index: int)
      requires 0 <= index < |VT(side)|
      modifies this
      ensures VT(side) == WithRow(old(VT(side)), index, AddVT(old(VT(side))[index].terminals, terminal))
      ensures VT(Other(side)) == old(VT(Other(side)))
    {
      if IsNonTerminal(terminal) {
        return;
      }
      var row := VT(side)[index];
      var k := 0;
      while k < |row.terminals|
        invariant 0 <= k <= |row.terminals|
        invariant terminal !in row.terminals[..k]
      {
        if row.terminals[k] == terminal {
          return;
        }
        assert row.terminals[..k + 1] == row.terminals[..k] + [row.terminals[k]];
        k := k + 1;
      }
      assert row.terminals[..k] == row.terminals;
      var updated := VTEntry(row.symbol, row.terminals + [terminal]);
      if side == First {
        firstVT := firstVT[index := updated];
      } else {
        lastVT := lastVT[index := updated];
      }
    }

    /** addToFirstVT / addToLastVT (a string): each non-upper-case character
        of terminals in turn. */
    method AddAllToVT(side: Side, terminals: seq<char>, index: int)
      requires 0 <= index < |VT(side)|
      modifies this
      ensures VT(side) == WithRow(old(VT(side)), index, AddAllVT(old(VT(side))[index].terminals, terminals))
      ensures VT(Other(side)) == old(VT(Other(side)))
    {
      ghost var v0, t0 := VT(side), VT(side)[index].terminals;
      var k := 0;
      while k < |terminals|
        invariant 0 <= k <= |terminals|
        invariant VT(side) == WithRow(v0, index, AddAllVT(t0, terminals[..k]))
        invariant VT(Other(side)) == old(VT(Other(side)))
      {
        AddAllVTSnoc(t0, terminals[..k], terminals[k]);
        assert terminals[..k + 1] == terminals[..k] + [terminals[k]];
        if !IsNonTerminal(terminals[k]) {
          AddToVT(side, terminals[k], index);
        }
        k := k + 1;
      }
      assert terminals[..k] == terminals;
    }

    /** computeFirstVT / computeLastVT for nonTerminal, whose row is index:
        applies the three rules to each of its productions and returns the
        row's string. Recursion ends because the ghost rank drops along every
        inheritance; a grammar without such a rank makes the source recurse
        forever. Afterwards nonTerminal and all it inherits from are closed
        under the rules, nothing already closed has changed, only the row
        strings of the side written have grown, and no recorded terminal is
        outside the reference definition. */
    method ComputeVT(side: Side, nonTerminal: char, index: int, grammar: Grammar,
                     ghost rank: map<char, nat>) returns (r: seq<char>)
      requires Valid()
      requires 0 <= index < |firstVT| && firstVT[index].symbol == nonTerminal
      requires Ranked(grammar.productions, side, rank) && nonTerminal in rank
      requires LeadsKnown(grammar.productions, side, Symbols(firstVT))
      requires Justified(grammar.productions, side, rank, VT(side))
      modifies this
      decreases rank[nonTerminal], 1
      ensures Valid()
      ensures VT(Other(side)) == old(VT(Other(side)))
      ensures Symbols(firstVT) == old(Symbols(firstVT))
      ensures Evolves(grammar.productions, side, rank, old(VT(side)), VT(side))
      ensures Justified(grammar.productions, side, rank, VT(side))
      ensures FullyClosed(grammar.productions, VT(side), side, rank, nonTerminal)
      ensures r == TerminalsOf(VT(side), nonTerminal)
    {
      ghost var prods := grammar.productions;
      IndexOfNoDup(Symbols(firstVT), index);
      var i := 0;
      while i < |grammar.productions|
        invariant 0 <= i <= |prods|
        invariant Valid()
        invariant VT(Other(side)) == old(VT(Other(side)))
        invariant Symbols(firstVT) == old(Symbols(firstVT))
        invariant Evolves(prods, side, rank, old(VT(side)), VT(side))
        invariant Justified(prods, side, rank, VT(side))
        invariant forall j :: 0 <= j < i && prods[j].lhs == nonTerminal ==> Done(prods, side, rank, VT(side), j)
      {
        if nonTerminal == grammar.productions[i].lhs {
          ghost var v0 := VT(side);
          ApplyRules(side, nonTerminal, index, grammar, i, rank);
          EvolvesTransitive(prods, side, rank, old(VT(side)), v0, VT(side));
          forall j | 0 <= j < i && prods[j].lhs == nonTerminal
            ensures Done(prods, side, rank, VT(side), j)
          {
            HoldsPersist(prods, side, rank, v0, VT(side), prods[j]);
          }
        }
        i := i + 1;
      }
      r := VT(side)[index].terminals;
    }

    /** The body of the loop of computeFirstVT / computeLastVT: the three
        rules for production i, whose left side is nonTerminal (row index).
        Rule 2 is tried only when rule 1 does not apply. */
    method ApplyRules(side: Side, nonTerminal: char, index: int, grammar: Grammar, i: int,
                      ghost rank: map<char, nat>)
      requires Valid()
      requires 0 <= index < |firstVT| && firstVT[index].symbol == nonTerminal
      requires 0 <= i < |grammar.productions| && grammar.productions[i].lhs == nonTerminal
      requires Ranked(grammar.productions, side, rank)
      requires LeadsKnown(grammar.productions, side, Symbols(firstVT))
      requires Justified(grammar.productions, side, rank, VT(side))
      modifies this
      decreases rank[nonTerminal], 0
      ensures Valid()
      ensures VT(Other(side)) == old(VT(Other(side)))
      ensures Symbols(firstVT) == old(Symbols(firstVT))
      ensures Evolves(grammar.productions, side, rank, old(VT(side)), VT(side))
      ensures Justified(grammar.productions, side, rank, VT(side))
      ensures Done(grammar.productions, side, rank, VT(side), i)
    {
      ghost var prods := grammar.productions;
      IndexOfNoDup(Symbols(firstVT), index);
      var rightSide := grammar.productions[i].rhs;
      ghost var v0 := VT(side);
      if |rightSide| > 0 && !IsNonTerminal(Lead(rightSide, side)) {
        // rule 1
        var a := Lead(rightSide, side);
        YieldStep(prods, side, rank, VT(side), index, i, a);
        AddToVT(side, a, index);
      } else if |rightSide| > 0 && IsNonTerminal(Lead(rightSide, side)) && nonTerminal != Lead(rightSide, side) {
        // rule 2
        var q := Lead(rightSide, side);
        var qIndex := FindNonTerminalIndex(q);
        var qVT := ComputeVT(side, q, qIndex, grammar, rank);
        ghost var v1 := VT(side);
        InheritStep(prods, side, rank, VT(side), index, i, qIndex);
        AddAllToVT(side, qVT, index);
        EvolvesTransitive(prods, side, rank, v0, v1, VT(side));
      }
      ghost var v2 := VT(side);
      assert InheritDone(prods, side, rank, v2, i);
      if |rightSide| >= 2 && IsNonTerminal(Lead(rightSide, side)) && !IsNonTerminal(Second(rightSide, side)) {
        // rule 3
        var a := Second(rightSide, side);
        YieldStep(prods, side, rank, VT(side), index, i, a);
        AddToVT(side, a, index);
        EvolvesTransitive(prods, side, rank, v0, v2, VT(side));
        InheritPersists(prods, side, rank, v2, VT(side), i);
      }
      DoneFromParts(prods, side, rank, VT(side), i);
    }

    /** computeAllFirstVTSets / computeAllLastVTSets: ComputeVT for every row
        in turn. Afterwards every row is fully closed and justified, so
        (AllClosed) every production satisfies the rules and every recorded
        string is exactly the reference FIRSTVT (LASTVT) of its non-terminal;
        the other table is untouched. */
    method ComputeAllVTSets(side: Side, grammar: Grammar, ghost rank: map<char, nat>)
      requires Valid()
      requires Ranked(grammar.productions, side, rank)
      requires forall c :: c in Symbols(firstVT) ==> c in rank
      requires forall i :: 0 <= i < |grammar.productions| ==> grammar.productions[i].lhs in Symbols(firstVT)
      requires LeadsKnown(grammar.productions, side, Symbols(firstVT))
      requires Justified(grammar.productions, side, rank, VT(side))
      modifies this
      ensures Valid()
      ensures VT(Other(side)) == old(VT(Other(side)))
      ensures Evolves(grammar.productions, side, rank, old(VT(side)), VT(side))
      ensures forall j :: 0 <= j < |VT(side)| ==> FullyClosed(grammar.productions, VT(side), side, rank, VT(side)[j].symbol)
      ensures Justified(grammar.productions, side, rank, VT(side))
    {
      ghost var prods := grammar.productions;
      var i := 0;
      while i < |firstVT|
        invariant 0 <= i <= |firstVT|
        invariant Valid()
        invariant VT(Other(side)) == old(VT(Other(side)))
        invariant Symbols(firstVT) == old(Symbols(firstVT))
        invariant Evolves(prods, side, rank, old(VT(side)), VT(side))
        invariant Justified(prods, side, rank, VT(side))
        invariant forall j :: 0 <= j < i ==> FullyClosed(prods, VT(side), side, rank, VT(side)[j].symbol)
      {
        ghost var v0 := VT(side);
        var c := VT(side)[i].symbol;
        var _ := ComputeVT(side, c, i, grammar, rank);
        NextRowClosed(prods, side, rank, old(VT(side)), v0, VT(side), i);
        i := i + 1;
      }
      assert |VT(side)| == |Symbols(firstVT)| == i;
    }
  }
}

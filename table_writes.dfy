/** Both precedence-table builders fill their table by a sequence of cell
    writes in which a later write to a cell replaces an earlier one. This
    module describes such a write sequence and what a table looks like after
    it, once for a table kept as a map (main.cpp) and once for a square grid
    addressed through a header of terminals (OperatorPriority.cpp). */
module TableWrites {
  import opened Seqs

  /** Setting cell (row, col) to value. */
  datatype Write = Write(row: char, col: char, value: char)

  /** The value of the last write to (a, b), if any write targets it. */
  function LastValue(ws: seq<Write>, a: char, b: char): (r: Option<char>)
    ensures r.None? <==> forall k :: 0 <= k < |ws| ==> !(ws[k].row == a && ws[k].col == b)
    ensures r.Some? ==> exists k :: 0 <= k < |ws| && ws[k] == Write(a, b, r.value) &&
                          forall k' :: k < k' < |ws| ==> !(ws[k'].row == a && ws[k'].col == b)
    decreases |ws|
  {
    if |ws| == 0 then None
    else if ws[|ws| - 1].row == a && ws[|ws| - 1].col == b then Some(ws[|ws| - 1].value)
    else
      var r := LastValue(ws[..|ws| - 1], a, b);
      LastValueUp(ws, a, b, r);
      r
  }

  /** The contract of LastValue carried from ws without its last write, which
      does not target (a, b), to ws. */
  lemma LastValueUp(ws: seq<Write>, a: char, b: char, r: Option<char>)
    requires |ws| > 0 && !(ws[|ws| - 1].row == a && ws[|ws| - 1].col == b)
    requires var p := ws[..|ws| - 1];
             && (r.None? <==> forall k :: 0 <= k < |p| ==> !(p[k].row == a && p[k].col == b))
             && (r.Some? ==> exists k :: 0 <= k < |p| && p[k] == Write(a, b, r.value) &&
                              forall k' :: k < k' < |p| ==> !(p[k'].row == a && p[k'].col == b))
    ensures r.None? <==> forall k :: 0 <= k < |ws| ==> !(ws[k].row == a && ws[k].col == b)
    ensures r.Some? ==> exists k :: 0 <= k < |ws| && ws[k] == Write(a, b, r.value) &&
                          forall k' :: k < k' < |ws| ==> !(ws[k'].row == a && ws[k'].col == b)
  {
    var p := ws[..|ws| - 1];
    assert forall k :: 0 <= k < |p| ==> p[k] == ws[k];
    if r.Some? {
      var k :| 0 <= k < |p| && p[k] == Write(a, b, r.value) &&
               forall k' :: k < k' < |p| ==> !(p[k'].row == a && p[k'].col == b);
      assert ws[k] == Write(a, b, r.value);
    }
  }

  lemma LastValueConcat(ws1: seq<Write>, ws2: seq<Write>, a: char, b: char)
    ensures LastValue(ws1 + ws2, a, b) ==
            if LastValue(ws2, a, b).Some? then LastValue(ws2, a, b) else LastValue(ws1, a, b)
    decreases |ws2|
  {
    if |ws2| == 0 {
      assert ws1 + ws2 == ws1;
    } else {
      assert (ws1 + ws2)[..|ws1 + ws2| - 1] == ws1 + ws2[..|ws2| - 1];
      LastValueConcat(ws1, ws2[..|ws2| - 1], a, b);
    }
  }

  /** The table kept as a map, after the writes. */
  function ApplyToMap(m: map<(char, char), char>, ws: seq<Write>): map<(char, char), char>
    decreases |ws|
  {
    if |ws| == 0 then m
    else
      var w := ws[|ws| - 1];
      ApplyToMap(m, ws[..|ws| - 1])[(w.row, w.col) := w.value]
  }

  /** A map cell holds its last write, or its old content when nothing wrote it. */
  lemma {:induction false} ApplyToMapAt(m: map<(char, char), char>, ws: seq<Write>, a: char, b: char)
    ensures LastValue(ws, a, b).Some? ==>
              (a, b) in ApplyToMap(m, ws) && ApplyToMap(m, ws)[(a, b)] == LastValue(ws, a, b).value
    ensures LastValue(ws, a, b).None? ==>
              ((a, b) in ApplyToMap(m, ws) <==> (a, b) in m) &&
              ((a, b) in m ==> ApplyToMap(m, ws)[(a, b)] == m[(a, b)])
    decreases |ws|
  {
    if |ws| > 0 {
      ApplyToMapAt(m, ws[..|ws| - 1], a, b);
    }
  }

  lemma {:induction false} ApplyToMapConcat(m: map<(char, char), char>, ws1: seq<Write>, ws2: seq<Write>)
    ensures ApplyToMap(m, ws1 + ws2) == ApplyToMap(ApplyToMap(m, ws1), ws2)
    decreases |ws2|
  {
    if |ws2| == 0 {
      assert ws1 + ws2 == ws1;
    } else {
      assert (ws1 + ws2)[..|ws1 + ws2| - 1] == ws1 + ws2[..|ws2| - 1];
      ApplyToMapConcat(m, ws1, ws2[..|ws2| - 1]);
    }
  }

  /** The writes f(0), f(1), ..., f(n - 1), one after the other. */
  function Concat(f: nat -> seq<Write>, n: nat): seq<Write>
    decreases n
  {
    if n == 0 then [] else Concat(f, n - 1) + f(n - 1)
  }

  /** A write of the concatenation comes from one of its parts. */
  lemma {:induction false} ConcatSound(f: nat -> seq<Write>, n: nat, w: Write) returns (j: nat)
    requires w in Concat(f, n)
    ensures j < n && w in f(j)
    decreases n
  {
    if w in f(n - 1) {
      j := n - 1;
    } else {
      j := ConcatSound(f, n - 1, w);
    }
  }

  /** Every write of every part is in the concatenation. */
  lemma {:induction false} ConcatComplete(f: nat -> seq<Write>, n: nat, w: Write, j: nat)
    requires j < n && w in f(j)
    ensures w in Concat(f, n)
    decreases n
  {
    if j < n - 1 {
      ConcatComplete(f, n - 1, w, j);
    }
  }

  /** a < t for every t of ts, in order (rule 3 of both tables). */
  function LessWrites(a: char, ts: seq<char>): seq<Write>
    decreases |ts|
  {
    if |ts| == 0 then [] else LessWrites(a, ts[..|ts| - 1]) + [Write(a, ts[|ts| - 1], '<')]
  }

  /** t > b for every t of ts, in order (rule 4 of both tables). */
  function GreaterWrites(ts: seq<char>, b: char): seq<Write>
    decreases |ts|
  {
    if |ts| == 0 then [] else GreaterWrites(ts[..|ts| - 1], b) + [Write(ts[|ts| - 1], b, '>')]
  }

  lemma {:induction false} LessWritesMembers(a: char, ts: seq<char>, w: Write)
    ensures w in LessWrites(a, ts) <==> w.row == a && w.col in ts && w.value == '<'
    decreases |ts|
  {
    if |ts| > 0 {
      LessWritesMembers(a, ts[..|ts| - 1], w);
      assert ts == ts[..|ts| - 1] + [ts[|ts| - 1]];
    }
  }

  lemma {:induction false} GreaterWritesMembers(ts: seq<char>, b: char, w: Write)
    ensures w in GreaterWrites(ts, b) <==> w.row in ts && w.col == b && w.value == '>'
    decreases |ts|
  {
    if |ts| > 0 {
      GreaterWritesMembers(ts[..|ts| - 1], b, w);
      assert ts == ts[..|ts| - 1] + [ts[|ts| - 1]];
    }
  }

  /** An n-by-n grid of relation characters. */
  predicate Square(g: seq<seq<char>>, n: nat) {
    |g| == n && forall r :: 0 <= r < n ==> |g[r]| == n
  }

  /** Every write names two header terminals. */
  predicate WithinHeader(terms: seq<char>, ws: seq<Write>) {
    forall w :: w in ws ==> w.row in terms && w.col in terms
  }

  /** The grid after the writes; a write's row and column are found in the header. */
  function ApplyToGrid(g: seq<seq<char>>, terms: seq<char>, ws: seq<Write>): (r: seq<seq<char>>)
    requires Square(g, |terms|) && WithinHeader(terms, ws)
    ensures Square(r, |terms|)
    decreases |ws|
  {
    if |ws| == 0 then g
    else
      var w := ws[|ws| - 1];
      var g' := ApplyToGrid(g, terms, ws[..|ws| - 1]);
      var i, j := IndexOf(terms, w.row), IndexOf(terms, w.col);
      g'[i := g'[i][j := w.value]]
  }

  /** A grid cell holds its last write, or its old content when nothing wrote it. */
  lemma {:induction false} ApplyToGridAt(g: seq<seq<char>>, terms: seq<char>, ws: seq<Write>, a: char, b: char)
    requires Square(g, |terms|) && WithinHeader(terms, ws) && NoDup(terms)
    requires a in terms && b in terms
    ensures ApplyToGrid(g, terms, ws)[IndexOf(terms, a)][IndexOf(terms, b)] ==
            match LastValue(ws, a, b)
            case Some(v) => v
            case None => g[IndexOf(terms, a)][IndexOf(terms, b)]
    decreases |ws|
  {
    if |ws| > 0 {
      var w := ws[|ws| - 1];
      ApplyToGridAt(g, terms, ws[..|ws| - 1], a, b);
      IndexOfNoDup(terms, IndexOf(terms, w.row));
      IndexOfNoDup(terms, IndexOf(terms, w.col));
    }
  }

  lemma {:induction false} ApplyToGridConcat(g: seq<seq<char>>, terms: seq<char>, ws1: seq<Write>, ws2: seq<Write>)
    requires Square(g, |terms|) && WithinHeader(terms, ws1) && WithinHeader(terms, ws2)
    ensures WithinHeader(terms, ws1 + ws2)
    ensures ApplyToGrid(g, terms, ws1 + ws2) == ApplyToGrid(ApplyToGrid(g, terms, ws1), terms, ws2)
    decreases |ws2|
  {
    if |ws2| == 0 {
      assert ws1 + ws2 == ws1;
    } else {
      assert (ws1 + ws2)[..|ws1 + ws2| - 1] == ws1 + ws2[..|ws2| - 1];
      ApplyToGridConcat(g, terms, ws1, ws2[..|ws2| - 1]);
    }
  }
}

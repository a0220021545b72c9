/** Sequence helpers shared by both analyses: first-occurrence lookup and the
    "append unless already present" accumulation that every duplicate-free
    list of the program (symbol inventories, FIRSTVT/LASTVT strings, table
    headers) is built with. */
module Seqs {

  datatype Option<T> = None | Some(value: T)

  /** The set of elements of a sequence. */
  function Elems<T>(s: seq<T>): set<T> {
    set x | x in s
  }

  predicate NoDup<T(==)>(s: seq<T>) {
    forall i, j :: 0 <= i < j < |s| ==> s[i] != s[j]
  }

  /** Index of the first occurrence of x in s, or -1 when x does not occur. */
  function IndexOf<T(==)>(s: seq<T>, x: T): (r: int)
    ensures -1 <= r < |s|
    ensures r == -1 <==> x !in s
    ensures 0 <= r ==> s[r] == x && x !in s[..r]
    decreases |s|
  {
    if |s| == 0 then -1
    else if s[0] == x then 0
    else
      var k := IndexOf(s[1..], x);
      if k == -1 then -1
      else
        assert s[..k + 1] == [s[0]] + s[1..][..k];
        k + 1
  }

  lemma IndexOfNoDup<T>(s: seq<T>, k: int)
    requires NoDup(s) && 0 <= k < |s|
    ensures IndexOf(s, s[k]) == k
  {
  }

  /** Appends x unless it is already present. */
  function Insert<T(==)>(acc: seq<T>, x: T): seq<T> {
    if x in acc then acc else acc + [x]
  }

  /** Inserts the elements of s one after the other, first to last. */
  function InsertAll<T(==)>(acc: seq<T>, s: seq<T>): seq<T>
    decreases |s|
  {
    if |s| == 0 then acc else Insert(InsertAll(acc, s[..|s| - 1]), s[|s| - 1])
  }

  lemma InsertAllSnoc<T>(acc: seq<T>, s: seq<T>, x: T)
    ensures InsertAll(acc, s + [x]) == Insert(InsertAll(acc, s), x)
  {
    assert (s + [x])[..|s|] == s;
  }

  lemma {:induction false} InsertAllConcat<T>(acc: seq<T>, s: seq<T>, t: seq<T>)
    ensures InsertAll(acc, s + t) == InsertAll(InsertAll(acc, s), t)
    decreases |t|
  {
    if |t| == 0 {
      assert s + t == s;
    } else {
      assert (s + t)[..|s + t| - 1] == s + t[..|t| - 1];
      InsertAllConcat(acc, s, t[..|t| - 1]);
    }
  }

  lemma InsertAllPrefix<T>(acc: seq<T>, s: seq<T>)
    ensures |acc| <= |InsertAll(acc, s)| && InsertAll(acc, s)[..|acc|] == acc
    decreases |s|
  {
    if |s| > 0 {
      InsertAllPrefix(acc, s[..|s| - 1]);
    }
  }

  lemma {:induction false} InsertAllMembers<T>(acc: seq<T>, s: seq<T>)
    ensures forall x :: x in InsertAll(acc, s) <==> x in acc || x in s
    decreases |s|
  {
    if |s| > 0 {
      var s' := s[..|s| - 1];
      InsertAllMembers(acc, s');
      assert s == s' + [s[|s| - 1]];
    }
  }

  lemma {:induction false} InsertAllNoDup<T>(acc: seq<T>, s: seq<T>)
    requires NoDup(acc)
    ensures NoDup(InsertAll(acc, s))
    decreases |s|
  {
    if |s| > 0 {
      InsertAllNoDup(acc, s[..|s| - 1]);
    }
  }

  /** Inserting elements that are all present already changes nothing. */
  lemma {:induction false} InsertAllPresent<T>(acc: seq<T>, s: seq<T>)
    requires forall x :: x in s ==> x in acc
    ensures InsertAll(acc, s) == acc
    decreases |s|
  {
    if |s| > 0 {
      var s' := s[..|s| - 1];
      assert forall x :: x in s' ==> x in s;
      InsertAllPresent(acc, s');
      assert s[|s| - 1] in s;
    }
  }

  /** Inserting the same elements a second time changes nothing. */
  lemma InsertAllIdempotent<T>(acc: seq<T>, s: seq<T>)
    ensures InsertAll(InsertAll(acc, s), s) == InsertAll(acc, s)
  {
    InsertAllMembers(acc, s);
    InsertAllPresent(InsertAll(acc, s), s);
  }

  /** r lists each element of s once, in the order of first occurrence in s. */
  ghost predicate FirstSeenOrder<T>(r: seq<T>, s: seq<T>) {
    && (forall k :: 0 <= k < |r| ==> r[k] in s)
    && (forall a, b :: 0 <= a < b < |r| ==> IndexOf(s, r[a]) < IndexOf(s, r[b]))
  }

  lemma IndexOfPrefix<T>(s: seq<T>, x: T, y: T)
    requires x in s
    ensures IndexOf(s + [y], x) == IndexOf(s, x)
  {
    var k := IndexOf(s, x);
    assert (s + [y])[k] == x;
    assert (s + [y])[..k] == s[..k];
  }

  lemma IndexOfLast<T>(s: seq<T>, y: T)
    requires y !in s
    ensures IndexOf(s + [y], y) == |s|
  {
    assert (s + [y])[..|s|] == s;
  }

  /** Deduplicating a sequence from an empty start keeps first-seen order. */
  lemma {:induction false} InsertAllFirstSeen<T>(s: seq<T>)
    ensures FirstSeenOrder(InsertAll([], s), s)
    decreases |s|
  {
    if |s| > 0 {
      var s', y := s[..|s| - 1], s[|s| - 1];
      var a := InsertAll([], s');
      InsertAllFirstSeen(s');
      InsertAllMembers([], s');
      assert s == s' + [y];
      forall x | x in a ensures IndexOf(s, x) == IndexOf(s', x) {
        IndexOfPrefix(s', x, y);
      }
      if y !in a {
        IndexOfLast(s', y);
        var r := a + [y];
        forall i, j | 0 <= i < j < |r| ensures IndexOf(s, r[i]) < IndexOf(s, r[j]) {
          if j < |a| {
            assert r[i] == a[i] && r[j] == a[j];
          } else {
            assert r[i] == a[i] && r[i] in s';
          }
        }
      }
    }
  }

  /** All facts about a deduplication from an empty start, in one place. */
  lemma DedupFacts<T>(s: seq<T>)
    ensures NoDup(InsertAll([], s))
    ensures forall x :: x in InsertAll([], s) <==> x in s
    ensures FirstSeenOrder(InsertAll([], s), s)
  {
    InsertAllNoDup([], s);
    InsertAllMembers([], s);
    InsertAllFirstSeen(s);
  }
}

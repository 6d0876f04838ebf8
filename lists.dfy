/**
 * Sequence operations that model the java.util.ArrayList calls the editor
 * makes: `indexOf`, `remove(Object)` (first occurrence) and counting.
 */
module Lists {

  /** The position of the first occurrence of `x` in `s`. */
  function IndexOf<T(==)>(s: seq<T>, x: T): (i: nat)
    requires x in s
    ensures i < |s| && s[i] == x
    ensures x !in s[..i]
  {
    if s[0] == x then 0 else 1 + IndexOf(s[1..], x)
  }

  /** `s` without the element at position `i`. */
  function Delete<T>(s: seq<T>, i: nat): (r: seq<T>)
    requires i < |s|
    ensures |r| == |s| - 1
    ensures forall j :: 0 <= j < i ==> r[j] == s[j]
    ensures forall j :: i <= j < |r| ==> r[j] == s[j + 1]
  {
    s[..i] + s[i + 1..]
  }

  /** Deleting a position takes exactly its element out of the multiset. */
  lemma DeleteMultiset<T>(s: seq<T>, i: nat)
    requires i < |s|
    ensures multiset(Delete(s, i)) == multiset(s) - multiset{s[i]}
  {
    assert s == s[..i] + [s[i]] + s[i + 1..];
  }

  /** Past the deleted position, entries move down by one. */
  lemma DeleteAfter<T>(s: seq<T>, i: nat, j: nat)
    requires i <= j < |s| - 1
    ensures Delete(s, i)[j] == s[j + 1]
  {
  }

  /** Every element other than the deleted one survives a deletion. */
  lemma DeleteKeeps<T>(s: seq<T>, i: nat)
    requires i < |s|
    ensures forall x :: x in s ==> x == s[i] || x in Delete(s, i)
  {
    forall x | x in s && x != s[i] ensures x in Delete(s, i) {
      var j :| 0 <= j < |s| && s[j] == x;
      if j < i { assert Delete(s, i)[j] == x; } else { assert Delete(s, i)[j - 1] == x; }
    }
  }

  /** `ArrayList.remove(Object)`: drops the first occurrence of `x`, if any. */
  function RemoveFirst<T(==)>(s: seq<T>, x: T): (r: seq<T>)
    ensures x in s ==> r == Delete(s, IndexOf(s, x))
    ensures x !in s ==> r == s
  {
    if x in s then Delete(s, IndexOf(s, x)) else s
  }

  /** Removing an occurrence adds no element. */
  lemma RemoveFirstSubset<T>(s: seq<T>, x: T, y: T)
    requires y in RemoveFirst(s, x)
    ensures y in s
  {
    var r := RemoveFirst(s, x);
    var j :| 0 <= j < |r| && r[j] == y;
    if x in s {
      var i := IndexOf(s, x);
      if j < i { assert s[j] == y; } else { assert s[j + 1] == y; }
    }
  }

  /** Removing an occurrence adds no element, for every element at once. */
  lemma RemoveFirstWithin<T>(s: seq<T>, x: T)
    ensures forall y :: y in RemoveFirst(s, x) ==> y in s
  {
    forall y | y in RemoveFirst(s, x) ensures y in s {
      RemoveFirstSubset(s, x, y);
    }
  }

  /** The number of occurrences of `x` in `s`. */
  function Count<T(==)>(s: seq<T>, x: T): (n: nat)
    ensures n == multiset(s)[x]
    ensures n == 0 <==> x !in s
  {
    if s == [] then 0
    else
      assert s == [s[0]] + s[1..];
      (if s[0] == x then 1 else 0) + Count(s[1..], x)
  }

  /** No element occurs twice. */
  predicate Distinct<T(==)>(s: seq<T>) {
    forall i, j :: 0 <= i < j < |s| ==> s[i] != s[j]
  }

  /** Two lists without repeats and with nothing in common make one without repeats. */
  lemma DistinctAppend<T>(s: seq<T>, t: seq<T>)
    requires Distinct(s) && Distinct(t) && forall x :: x in t ==> x !in s
    ensures Distinct(s + t)
  {
    forall i, j | 0 <= i < j < |s + t|
      ensures (s + t)[i] != (s + t)[j]
    {
      if i < |s| && |s| <= j {
        assert (s + t)[j] in t;
      }
    }
  }

  /** In a list without repeats an element occurs once or not at all. */
  lemma {:induction false} DistinctCount<T>(s: seq<T>, x: T)
    requires Distinct(s)
    ensures Count(s, x) == if x in s then 1 else 0
  {
    if s != [] {
      assert Distinct(s[1..]) by {
        forall i, j | 0 <= i < j < |s[1..]| ensures s[1..][i] != s[1..][j] {
          assert s[1..][i] == s[i + 1] && s[1..][j] == s[j + 1];
        }
      }
      DistinctCount(s[1..], x);
      if s[0] == x {
        assert x !in s[1..] by {
          forall i | 0 <= i < |s[1..]| ensures s[1..][i] != x {
            assert s[1..][i] == s[i + 1];
          }
        }
      }
    }
  }

  /** Removing the first occurrence takes exactly one `x` out of the multiset. */
  lemma RemoveFirstMultiset<T>(s: seq<T>, x: T)
    ensures multiset(RemoveFirst(s, x)) == multiset(s) - multiset{x}
  {
    if x in s {
      var i := IndexOf(s, x);
      assert s == s[..i] + [x] + s[i + 1..];
    }
  }

  /** The remaining occurrences of `x` after one removal. */
  lemma RemoveFirstCount<T>(s: seq<T>, x: T, y: T)
    ensures Count(RemoveFirst(s, x), y) == if x == y && x in s then Count(s, y) - 1 else Count(s, y)
  {
    RemoveFirstMultiset(s, x);
  }

  /** Removing an element from a list without repeats leaves no occurrence behind. */
  lemma RemoveFirstDistinct<T>(s: seq<T>, x: T)
    requires Distinct(s)
    ensures Distinct(RemoveFirst(s, x))
    ensures x !in RemoveFirst(s, x)
    ensures forall y :: y in RemoveFirst(s, x) <==> y in s && y != x
  {
    if x in s {
      var i := IndexOf(s, x);
      var r := RemoveFirst(s, x);
      forall y | y in s && y != x ensures y in r {
        var j :| 0 <= j < |s| && s[j] == y;
        if j < i { assert r[j] == y; } else { assert r[j - 1] == y; }
      }
    }
  }

  /** An element absent from the front part is removed from the back part. */
  lemma RemoveFirstPast<T>(a: seq<T>, b: seq<T>, x: T)
    requires x !in a
    ensures RemoveFirst(a + b, x) == a + RemoveFirst(b, x)
  {
    if x in b {
      var i := IndexOf(b, x);
      assert (a + b)[..|a| + i] == a + b[..i];
      IndexOfUnique(a + b, x, |a| + i);
      assert Delete(a + b, |a| + i) == a + Delete(b, i);
    }
  }

  /** Appending does not move the first occurrence of an element already present. */
  lemma IndexOfAppend<T>(s: seq<T>, t: seq<T>, x: T)
    requires x in s
    ensures x in s + t && IndexOf(s + t, x) == IndexOf(s, x)
  {
    var i := IndexOf(s, x);
    assert (s + t)[i] == x;
    assert (s + t)[..i] == s[..i];
    IndexOfUnique(s + t, x, i);
  }

  /** The first-occurrence index is the only position holding `x` with no `x` before it. */
  lemma IndexOfUnique<T>(s: seq<T>, x: T, i: nat)
    requires i < |s| && s[i] == x && x !in s[..i]
    ensures IndexOf(s, x) == i
  {
  }

  /** A prefix one longer holds only its last entry besides what the shorter one holds. */
  lemma TakeOneMore<T>(s: seq<T>, k: nat)
    requires k < |s|
    ensures s[..k + 1] == s[..k] + [s[k]]
    ensures forall x :: x in s[..k + 1] <==> x in s[..k] || x == s[k]
  {
    assert s[..k + 1] == s[..k] + [s[k]];
  }

  /** The first `x` left after deleting the first `x` of `s` is a later `x` of `s`. */
  lemma DeleteFirstAgain<T>(s: seq<T>, x: T)
    requires x in s && x in Delete(s, IndexOf(s, x))
    ensures var i := IndexOf(s, x); var j := IndexOf(Delete(s, i), x);
      i <= j && j + 1 < |s| && s[j + 1] == x && x in s[..j + 1]
  {
    var i := IndexOf(s, x);
    var j := IndexOf(Delete(s, i), x);
    assert forall k :: 0 <= k < i ==> Delete(s, i)[k] == s[..i][k];
    assert s[..j + 1][i] == x;
  }

  /** The last entry counts once for its own value. */
  lemma CountLast<T>(s: seq<T>, u: T)
    requires |s| > 0
    ensures Count(s, u) == Count(s[..|s| - 1], u) + (if s[|s| - 1] == u then 1 else 0)
  {
    MultisetLast(s);
  }

  /** A list is its entries but the last, then the last. */
  lemma MultisetLast<T>(s: seq<T>)
    requires |s| > 0
    ensures multiset(s) == multiset(s[..|s| - 1]) + multiset{s[|s| - 1]}
  {
    assert s[..|s| - 1] + [s[|s| - 1]] == s;
  }

  /** The last entry counts once for its own value, whatever the value counted. */
  lemma CountDropLast<T>(s: seq<T>)
    requires |s| > 0
    ensures forall u :: Count(s, u) == Count(s[..|s| - 1], u) + (if s[|s| - 1] == u then 1 else 0)
  {
    forall u ensures Count(s, u) == Count(s[..|s| - 1], u) + (if s[|s| - 1] == u then 1 else 0) {
      CountLast(s, u);
    }
  }

  /** When the first `x` is last but one, dropping the last entry leaves exactly one `x`. */
  lemma FirstLastButOne<T>(s: seq<T>, x: T)
    requires x in s && IndexOf(s, x) == |s| - 2
    ensures Count(s[..|s| - 1], x) == 1
    ensures forall u :: Count(s, u) == Count(s[..|s| - 1], u) + (if s[|s| - 1] == u then 1 else 0)
  {
    var k := |s| - 2;
    var t := s[..k + 1];
    assert t[..k] == s[..k] && x !in s[..k];
    CountLast(t, x);
    assert t == s[..|s| - 1];
    CountDropLast(s);
  }

  /** Appending at the end keeps the head and appends to the tail. */
  lemma HeadTailSnoc<T>(s: seq<T>, x: T)
    requires s != []
    ensures (s + [x])[0] == s[0] && (s + [x])[1..] == s[1..] + [x]
  {
  }

  /** A list one longer than `t` that starts with `t` is `t` and its last entry. */
  lemma GrownByOne<T>(s: seq<T>, t: seq<T>)
    requires |s| == |t| + 1 && s[..|t|] == t
    ensures s == t + [s[|t|]]
  {
    assert s == s[..|t|] + [s[|t|]];
  }
}

/** `Array.prototype.sort()` without a comparator on an array of strings: the strings are
    put in ascending order of their UTF-16 code units, a proper prefix first. */
module StringOrder {
  import opened JsText

  /** `a` comes strictly before `b`. */
  predicate StrLess(a: string, b: string)
  {
    if a == [] then b != []
    else if b == [] then false
    else if a[0] != b[0] then a[0] < b[0]
    else StrLess(a[1..], b[1..])
  }

  lemma {:induction false} StrLessIrreflexive(a: string)
    ensures !StrLess(a, a)
  {
    if a != [] { StrLessIrreflexive(a[1..]); }
  }

  /** Two different strings are ordered one way or the other, never both. */
  lemma {:induction false} StrLessTrichotomy(a: string, b: string)
    ensures a == b || StrLess(a, b) || StrLess(b, a)
    ensures !(StrLess(a, b) && StrLess(b, a))
  {
    if a != [] && b != [] && a[0] == b[0] {
      StrLessTrichotomy(a[1..], b[1..]);
      if a[1..] == b[1..] {
        assert a == [a[0]] + a[1..] && b == [b[0]] + b[1..];
      }
    }
  }

  lemma {:induction false} StrLessTransitive(a: string, b: string, c: string)
    requires StrLess(a, b) && StrLess(b, c)
    ensures StrLess(a, c)
  {
    if a != [] && b != [] && c != [] && a[0] == b[0] && b[0] == c[0] {
      StrLessTransitive(a[1..], b[1..], c[1..]);
    }
  }

  predicate StrLessEq(a: string, b: string) { a == b || StrLess(a, b) }

  predicate Sorted(s: seq<string>) {
    forall i, j :: 0 <= i < j < |s| ==> StrLessEq(s[i], s[j])
  }

  /** `x` put after every element not greater than it, in front of the first greater one. */
  function Insert(x: string, s: seq<string>): (r: seq<string>)
    ensures |r| == |s| + 1
    ensures multiset(r) == multiset(s) + multiset{x}
  {
    if s == [] || StrLess(x, s[0]) then [x] + s
    else
      assert s == [s[0]] + s[1..];
      [s[0]] + Insert(x, s[1..])
  }

  /** Insertion keeps a sorted sequence sorted. */
  lemma {:induction false} InsertSorted(x: string, s: seq<string>)
    requires Sorted(s)
    ensures Sorted(Insert(x, s))
  {
    var r := Insert(x, s);
    if s == [] {
    } else if StrLess(x, s[0]) {
      forall i, j | 0 <= i < j < |r| ensures StrLessEq(r[i], r[j]) {
        if i == 0 && j > 1 {
          assert StrLessEq(s[0], s[j - 1]);
          if s[0] != s[j - 1] { StrLessTransitive(x, s[0], s[j - 1]); }
        }
      }
    } else {
      InsertSorted(x, s[1..]);
      var t := Insert(x, s[1..]);
      StrLessTrichotomy(x, s[0]);
      forall i, j | 0 <= i < j < |r| ensures StrLessEq(r[i], r[j]) {
        if i == 0 {
          var y := r[j];
          assert y == t[j - 1];
          assert y in multiset(t);
          if y == x {
          } else {
            assert y in multiset(s[1..]);
            var k :| 0 <= k < |s[1..]| && s[1..][k] == y;
            assert StrLessEq(s[0], s[k + 1]);
          }
        } else {
          assert r[i] == t[i - 1] && r[j] == t[j - 1];
        }
      }
    }
  }

  /** `sort()`: the strings of `s` in ascending order. */
  function Sort(s: seq<string>): (r: seq<string>)
    ensures |r| == |s|
    ensures multiset(r) == multiset(s)
  {
    if s == [] then []
    else
      assert s == s[..|s| - 1] + [s[|s| - 1]];
      Insert(s[|s| - 1], Sort(s[..|s| - 1]))
  }

  /** The result of `sort()` is sorted and holds the same strings. */
  lemma {:induction false} SortSorted(s: seq<string>)
    ensures Sorted(Sort(s))
  {
    if s != [] {
      SortSorted(s[..|s| - 1]);
      InsertSorted(s[|s| - 1], Sort(s[..|s| - 1]));
    }
  }

  /** Inserting an element not smaller than any other appends it. */
  lemma {:induction false} InsertLast(x: string, s: seq<string>)
    requires forall k :: 0 <= k < |s| ==> StrLessEq(s[k], x)
    ensures Insert(x, s) == s + [x]
  {
    if s != [] {
      StrLessTrichotomy(x, s[0]);
      InsertLast(x, s[1..]);
      assert s == [s[0]] + s[1..];
    }
  }

  /** Sorting a sorted sequence changes nothing. */
  lemma {:induction false} SortOfSorted(s: seq<string>)
    requires Sorted(s)
    ensures Sort(s) == s
  {
    if s != [] {
      var init := s[..|s| - 1];
      SortOfSorted(init);
      InsertLast(s[|s| - 1], init);
      assert init + [s[|s| - 1]] == s;
    }
  }

  /** Pushing onto a sorted sequence and sorting inserts the new element in place. */
  lemma SortAfterPush(s: seq<string>, x: string)
    requires Sorted(s)
    ensures Sort(s + [x]) == Insert(x, s)
  {
    assert (s + [x])[..|s|] == s;
    SortOfSorted(s);
  }

  /** Where `Insert` puts its element: the sequence splits around it. */
  lemma {:induction false} InsertSplits(x: string, s: seq<string>)
    ensures exists k :: 0 <= k <= |s| && Insert(x, s) == s[..k] + [x] + s[k..]
  {
    if s == [] || StrLess(x, s[0]) {
      assert Insert(x, s) == s[..0] + [x] + s[0..];
    } else {
      InsertSplits(x, s[1..]);
      var k :| 0 <= k <= |s[1..]| && Insert(x, s[1..]) == s[1..][..k] + [x] + s[1..][k..];
      assert s[..k + 1] == [s[0]] + s[1..][..k];
      assert s[k + 1..] == s[1..][k..];
    }
  }

  /** `indexOf` finds the first occurrence. */
  lemma IndexOfFirst(r: seq<string>, x: string, k: nat)
    requires k < |r| && r[k] == x && x !in r[..k]
    ensures IndexOf(r, x) == k
  {
    assert forall m :: 0 <= m < k ==> r[..k][m] == r[m];
  }

  /** An element put between two parts of a sequence that lacks it is found where it was
      put, and removing it there gives the sequence back. */
  lemma RemoveWhatWasPut(s: seq<string>, x: string, k: nat, r: seq<string>)
    requires x !in s && k <= |s| && r == s[..k] + [x] + s[k..]
    ensures IndexOf(r, x) == k
    ensures RemoveAt(r, k) == s
  {
    assert r[..k] == s[..k];
    assert r[k + 1..] == s[k..];
    assert r[k] == x;
    assert x !in s[..k] by { assert forall y :: y in s[..k] ==> y in s; }
    IndexOfFirst(r, x, k);
    assert s[..k] + s[k..] == s;
  }

  /** Removing a new element again, at the index `indexOf` gives, undoes the insertion. */
  lemma InsertThenRemove(x: string, s: seq<string>)
    requires x !in s
    ensures 0 <= IndexOf(Insert(x, s), x)
    ensures RemoveAt(Insert(x, s), IndexOf(Insert(x, s), x)) == s
  {
    InsertSplits(x, s);
    var k :| 0 <= k <= |s| && Insert(x, s) == s[..k] + [x] + s[k..];
    RemoveWhatWasPut(s, x, k, Insert(x, s));
  }
}
